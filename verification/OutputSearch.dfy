/**
 * The line search over one captured stream: a forward scan from a resumable
 * cursor that reports matching lines with context, under a rune budget and a
 * match budget. The regular expression is an arbitrary predicate on lines.
 */
module OutputSearch {
  import opened Prelude
  import Decimal

  type Line = string

  /** A search request after normalisation; line positions are zero-based. */
  datatype SearchRequest = SearchRequest(startLine: nat, context: nat, limit: nat, maxMatches: nat)

  datatype SearchResult = SearchResult(
    startLine: nat,
    nextStartLine: nat,
    totalLines: nat,
    matchLines: seq<nat>,
    content: string,
    contentTruncated: bool,
    eof: bool)

  // ---------------------------------------------------------------- reference

  /** The one-based numbers of the matching lines among positions [lo, hi). */
  function MatchNumbers(lines: seq<Line>, hit: Line -> bool, lo: nat, hi: nat): seq<nat>
    requires lo <= hi <= |lines|
    decreases hi - lo
  {
    if lo == hi then []
    else MatchNumbers(lines, hit, lo, hi - 1) + if hit(lines[hi - 1]) then [hi] else []
  }

  function FormatLine(lines: seq<Line>, i: nat): string
    requires i < |lines|
  {
    Decimal.FormatUint(i + 1) + ":" + lines[i] + "\n"
  }

  /** Position i is shown: it lies within the context of a match in [lo, hi). */
  ghost predicate Shown(lines: seq<Line>, hit: Line -> bool, lo: nat, hi: nat, context: nat, i: int) {
    exists m :: lo <= m < hi <= |lines| && hit(lines[m]) && m - context <= i <= m + context
  }

  /**
   * Every shown line before position upTo, once each and in order. This never
   * mentions blocks, overlap or what has been emitted before.
   */
  ghost function Excerpt(lines: seq<Line>, hit: Line -> bool, lo: nat, hi: nat, context: nat, upTo: nat): string
    requires upTo <= |lines|
    decreases upTo
  {
    if upTo == 0 then ""
    else
      Excerpt(lines, hit, lo, hi, context, upTo - 1) +
      if Shown(lines, hit, lo, hi, context, upTo - 1) then FormatLine(lines, upTo - 1) else ""
  }

  ghost function FullExcerpt(lines: seq<Line>, hit: Line -> bool, lo: nat, hi: nat, context: nat): string {
    Excerpt(lines, hit, lo, hi, context, |lines|)
  }

  /** The excerpt of the page did not fit its rune budget. */
  ghost predicate Cut(lines: seq<Line>, hit: Line -> bool, request: SearchRequest, res: SearchResult) {
    |FullExcerpt(lines, hit, res.startLine, res.nextStartLine, request.context)| > request.limit
  }

  /**
   * What one search call must return. The page covers [startLine, nextStartLine);
   * it reports exactly the matches there; its text is their excerpt, cut to the
   * budget only for a lone first match; and it stops early only because a budget
   * forces it to.
   */
  ghost predicate IsSearchPage(lines: seq<Line>, hit: Line -> bool, request: SearchRequest, res: SearchResult) {
    && res.startLine == Min(request.startLine, |lines|)
    && res.totalLines == |lines|
    && res.startLine <= res.nextStartLine <= |lines|
    && res.matchLines == MatchNumbers(lines, hit, res.startLine, res.nextStartLine)
    && |res.matchLines| <= request.maxMatches
    && (var full := FullExcerpt(lines, hit, res.startLine, res.nextStartLine, request.context);
        res.content == full[..Min(|full|, request.limit)])
    && (Cut(lines, hit, request, res) ==> |res.matchLines| == 1 && hit(lines[res.nextStartLine - 1]))
    && (|res.matchLines| == request.maxMatches ==>
        res.startLine < res.nextStartLine && hit(lines[res.nextStartLine - 1]))
    && (res.nextStartLine < |lines| ==>
          || |res.matchLines| == request.maxMatches
          || Cut(lines, hit, request, res)
          || (&& |res.matchLines| > 0
              && hit(lines[res.nextStartLine])
              && |FullExcerpt(lines, hit, res.startLine, res.nextStartLine + 1, request.context)| > request.limit))
    && res.contentTruncated == (res.nextStartLine < |lines| || Cut(lines, hit, request, res))
    && res.eof == (res.nextStartLine >= |lines|)
  }

  // ------------------------------------------------------------ excerpt lemmas

  function Block(lines: seq<Line>, lo: nat, hi: nat): string
    requires lo <= hi <= |lines|
    decreases hi - lo
  {
    if lo == hi then "" else Block(lines, lo, hi - 1) + FormatLine(lines, hi - 1)
  }

  lemma {:induction false} ExcerptAgrees(lines: seq<Line>, hit: Line -> bool, lo: nat, hi: nat, hi': nat, context: nat,
                                         upTo: nat)
    requires upTo <= |lines|
    requires forall i :: 0 <= i < upTo ==>
      (Shown(lines, hit, lo, hi, context, i) <==> Shown(lines, hit, lo, hi', context, i))
    ensures Excerpt(lines, hit, lo, hi, context, upTo) == Excerpt(lines, hit, lo, hi', context, upTo)
    decreases upTo
  {
    if upTo > 0 {
      ExcerptAgrees(lines, hit, lo, hi, hi', context, upTo - 1);
    }
  }

  lemma {:induction false} ExcerptSkips(lines: seq<Line>, hit: Line -> bool, lo: nat, hi: nat, context: nat, from: nat,
                                        upTo: nat)
    requires from <= upTo <= |lines|
    requires forall i :: from <= i < upTo ==> !Shown(lines, hit, lo, hi, context, i)
    ensures Excerpt(lines, hit, lo, hi, context, upTo) == Excerpt(lines, hit, lo, hi, context, from)
    decreases upTo
  {
    if from < upTo {
      ExcerptSkips(lines, hit, lo, hi, context, from, upTo - 1);
    }
  }

  lemma Associative(a: string, b: string, c: string)
    ensures (a + b) + c == a + (b + c)
  {
  }

  lemma {:induction false} ExcerptAppends(lines: seq<Line>, hit: Line -> bool, lo: nat, hi: nat, context: nat,
                                          from: nat, upTo: nat)
    requires from <= upTo <= |lines|
    requires forall i :: from <= i < upTo ==> Shown(lines, hit, lo, hi, context, i)
    ensures Excerpt(lines, hit, lo, hi, context, upTo) ==
            Excerpt(lines, hit, lo, hi, context, from) + Block(lines, from, upTo)
    decreases upTo
  {
    if from < upTo {
      var last := upTo - 1;
      ExcerptAppends(lines, hit, lo, hi, context, from, last);
      assert Shown(lines, hit, lo, hi, context, last);
      hide Shown, FormatLine;
      Associative(Excerpt(lines, hit, lo, hi, context, from), Block(lines, from, last), FormatLine(lines, last));
    }
  }

  /** The last match before position at, or -1: nothing later has matched. */
  ghost predicate LastMatch(lines: seq<Line>, hit: Line -> bool, lo: nat, at: nat, last: int) {
    && lo <= at <= |lines|
    && (last == -1 || (lo <= last < at && hit(lines[last])))
    && forall k :: lo <= k < at && last < k ==> !hit(lines[k])
  }

  function EmittedUpTo(lines: seq<Line>, context: nat, last: int): nat
    requires -1 <= last < |lines|
  {
    if last == -1 then 0 else Min(last + context + 1, |lines|)
  }

  /** Nothing is shown past the window of the last match. */
  lemma ExcerptEnds(lines: seq<Line>, hit: Line -> bool, lo: nat, at: nat, context: nat, last: int)
    requires LastMatch(lines, hit, lo, at, last)
    ensures FullExcerpt(lines, hit, lo, at, context) ==
            Excerpt(lines, hit, lo, at, context, EmittedUpTo(lines, context, last))
  {
    ExcerptSkips(lines, hit, lo, at, context, EmittedUpTo(lines, context, last), |lines|);
  }

  /** Lines already emitted, or before the new window, are shown as before. */
  lemma ShownBelowWindow(lines: seq<Line>, hit: Line -> bool, lo: nat, at: nat, next: nat, context: nat, last: int,
                         i: nat)
    requires next == at + 1 <= |lines|
    requires LastMatch(lines, hit, lo, at, last) && hit(lines[at])
    requires i < Max(EmittedUpTo(lines, context, last), at - context)
    ensures Shown(lines, hit, lo, at, context, i) <==> Shown(lines, hit, lo, next, context, i)
  {
    if Shown(lines, hit, lo, next, context, i) {
      var m :| lo <= m < next && hit(lines[m]) && m - context <= i <= m + context;
      if m == at {
        assert lo <= last < at && hit(lines[last]) && last - context <= i <= last + context;
      }
    }
  }

  lemma ExcerptBelowWindow(lines: seq<Line>, hit: Line -> bool, lo: nat, at: nat, next: nat, context: nat, last: int,
                           from: nat)
    requires next == at + 1 <= |lines|
    requires LastMatch(lines, hit, lo, at, last) && hit(lines[at])
    requires from == Max(EmittedUpTo(lines, context, last), at - context)
    ensures Excerpt(lines, hit, lo, next, context, from) == FullExcerpt(lines, hit, lo, at, context)
  {
    forall i | 0 <= i < from
      ensures Shown(lines, hit, lo, at, context, i) <==> Shown(lines, hit, lo, next, context, i)
    {
      ShownBelowWindow(lines, hit, lo, at, next, context, last, i);
    }
    ExcerptAgrees(lines, hit, lo, at, next, context, from);
    ExcerptSkips(lines, hit, lo, at, context, EmittedUpTo(lines, context, last), from);
    ExcerptEnds(lines, hit, lo, at, context, last);
  }

  /**
   * The step of the scan: a match at position at adds exactly the block that
   * starts after what was emitted, however its window overlaps earlier ones.
   */
  lemma ExcerptGrows(lines: seq<Line>, hit: Line -> bool, lo: nat, at: nat, next: nat, context: nat, last: int,
                     from: nat, upTo: nat)
    requires next == at + 1 <= |lines|
    requires LastMatch(lines, hit, lo, at, last) && hit(lines[at])
    requires from == Max(EmittedUpTo(lines, context, last), at - context)
    requires upTo == Min(at + context + 1, |lines|)
    ensures from <= upTo
    ensures FullExcerpt(lines, hit, lo, next, context) ==
            FullExcerpt(lines, hit, lo, at, context) + Block(lines, from, upTo)
  {
    ExcerptBelowWindow(lines, hit, lo, at, next, context, last, from);
    assert forall i :: from <= i < upTo ==> Shown(lines, hit, lo, next, context, i);
    ExcerptAppends(lines, hit, lo, next, context, from, upTo);
    ExcerptEnds(lines, hit, lo, next, context, at);
  }

  /** A line that does not match changes nothing. */
  lemma ExcerptStays(lines: seq<Line>, hit: Line -> bool, lo: nat, at: nat, next: nat, context: nat)
    requires lo <= at && next == at + 1 <= |lines| && !hit(lines[at])
    ensures FullExcerpt(lines, hit, lo, next, context) == FullExcerpt(lines, hit, lo, at, context)
  {
    forall i | 0 <= i < |lines|
      ensures Shown(lines, hit, lo, at, context, i) <==> Shown(lines, hit, lo, next, context, i)
    {
    }
    ExcerptAgrees(lines, hit, lo, at, next, context, |lines|);
  }

  // ------------------------------------------------------------------ the scan

  /** The context block of the match at lineIndex, from the first line not yet emitted. */
  method RenderBlock(lines: seq<Line>, lineIndex: nat, context: nat, lastEmitted: int)
    returns (block: string, blockEnd: nat)
    requires lineIndex < |lines| && -1 <= lastEmitted < |lines| && lastEmitted <= lineIndex + context
    ensures blockEnd == Min(lineIndex + context + 1, |lines|)
    ensures block == Block(lines, Max(lastEmitted + 1, lineIndex - context), blockEnd)
  {
    var blockStart := lineIndex - context;
    if blockStart < 0 {
      blockStart := 0;
    }
    if blockStart <= lastEmitted {
      blockStart := lastEmitted + 1;
    }
    blockEnd := lineIndex + context + 1;
    if blockEnd > |lines| {
      blockEnd := |lines|;
    }
    block := "";
    for selected := blockStart to blockEnd
      invariant block == Block(lines, blockStart, selected)
    {
      block := block + (Decimal.FormatUint(selected + 1) + ":" + lines[selected] + "\n");
    }
  }

  /** What the scan has established when it reaches position at. */
  ghost predicate Scanned(lines: seq<Line>, hit: Line -> bool, request: SearchRequest, start: nat, at: nat, last: int,
                          matchLines: seq<nat>, content: string)
  {
    && start == Min(request.startLine, |lines|)
    && LastMatch(lines, hit, start, at, last)
    && matchLines == MatchNumbers(lines, hit, start, at)
    && |matchLines| < request.maxMatches
    && (matchLines == [] <==> last == -1)
    && content == FullExcerpt(lines, hit, start, at, request.context)
    && |content| <= request.limit
    && (matchLines == [] ==> content == "")
  }

  lemma ScanStarts(lines: seq<Line>, hit: Line -> bool, request: SearchRequest, start: nat)
    requires 1 <= request.limit && 1 <= request.maxMatches
    requires start == Min(request.startLine, |lines|)
    ensures Scanned(lines, hit, request, start, start, -1, [], "")
  {
    ExcerptEnds(lines, hit, start, start, request.context, -1);
  }

  lemma ScanSkips(lines: seq<Line>, hit: Line -> bool, request: SearchRequest, start: nat, at: nat, last: int,
                  matchLines: seq<nat>, content: string)
    requires at < |lines| && !hit(lines[at])
    requires Scanned(lines, hit, request, start, at, last, matchLines, content)
    ensures Scanned(lines, hit, request, start, at + 1, last, matchLines, content)
  {
    ExcerptStays(lines, hit, start, at, at + 1, request.context);
  }

  /** The scan ran off the end. */
  lemma PageAtEnd(lines: seq<Line>, hit: Line -> bool, request: SearchRequest, start: nat, last: int,
                  matchLines: seq<nat>, content: string)
    requires Scanned(lines, hit, request, start, |lines|, last, matchLines, content)
    ensures IsSearchPage(lines, hit, request,
                         SearchResult(start, |lines|, |lines|, matchLines, content, false, true))
  {
  }

  /** The block of the match at position at exceeds what is left of the budget. */
  lemma PageOutOfRunes(lines: seq<Line>, hit: Line -> bool, request: SearchRequest, start: nat, at: nat, last: int,
                       matchLines: seq<nat>, content: string, block: string)
    requires 1 <= request.limit && at < |lines| && hit(lines[at])
    requires Scanned(lines, hit, request, start, at, last, matchLines, content)
    requires FullExcerpt(lines, hit, start, at + 1, request.context) == content + block
    requires |content| + |block| > request.limit
    ensures matchLines == [] ==>
              IsSearchPage(lines, hit, request,
                           SearchResult(start, at + 1, |lines|, [at + 1], block[..request.limit], true,
                                        at + 1 >= |lines|))
    ensures matchLines != [] ==>
              IsSearchPage(lines, hit, request, SearchResult(start, at, |lines|, matchLines, content, true, false))
  {
  }

  /** The match at position at fits; it may be the last the match budget allows. */
  lemma ScanTakes(lines: seq<Line>, hit: Line -> bool, request: SearchRequest, start: nat, at: nat, last: int,
                  matchLines: seq<nat>, content: string, block: string)
    requires at < |lines| && hit(lines[at])
    requires Scanned(lines, hit, request, start, at, last, matchLines, content)
    requires FullExcerpt(lines, hit, start, at + 1, request.context) == content + block
    requires |content| + |block| <= request.limit
    ensures |matchLines| + 1 < request.maxMatches ==>
              Scanned(lines, hit, request, start, at + 1, at, matchLines + [at + 1], content + block)
    ensures |matchLines| + 1 >= request.maxMatches ==>
              IsSearchPage(lines, hit, request,
                           SearchResult(start, at + 1, |lines|, matchLines + [at + 1], content + block,
                                        at + 1 < |lines|, at + 1 >= |lines|))
  {
  }

  lemma BlockGrows(lines: seq<Line>, hit: Line -> bool, request: SearchRequest, start: nat, at: nat, last: int,
                   matchLines: seq<nat>, content: string, block: string)
    requires at < |lines| && hit(lines[at])
    requires Scanned(lines, hit, request, start, at, last, matchLines, content)
    requires block == Block(lines, Max(EmittedUpTo(lines, request.context, last), at - request.context),
                            Min(at + request.context + 1, |lines|))
    ensures FullExcerpt(lines, hit, start, at + 1, request.context) == content + block
  {
    hide FullExcerpt, Block, MatchNumbers;
    ExcerptGrows(lines, hit, start, at, at + 1, request.context, last,
                 Max(EmittedUpTo(lines, request.context, last), at - request.context),
                 Min(at + request.context + 1, |lines|));
  }

  lemma ContentFits(lines: seq<Line>, hit: Line -> bool, request: SearchRequest, start: nat, at: nat, last: int,
                    matchLines: seq<nat>, content: string)
    requires Scanned(lines, hit, request, start, at, last, matchLines, content)
    ensures |content| <= request.limit && (matchLines == [] ==> content == "")
  {
  }

  /** One iteration at a match, given the block RenderBlock produced for it. */
  lemma ScanMatches(lines: seq<Line>, hit: Line -> bool, request: SearchRequest, start: nat, at: nat, last: int,
                    matchLines: seq<nat>, content: string, block: string)
    requires 1 <= request.limit && at < |lines| && hit(lines[at])
    requires Scanned(lines, hit, request, start, at, last, matchLines, content)
    requires block == Block(lines, Max(EmittedUpTo(lines, request.context, last), at - request.context),
                            Min(at + request.context + 1, |lines|))
    ensures |content| + |block| > request.limit && matchLines == [] ==>
              content == "" &&
              IsSearchPage(lines, hit, request,
                           SearchResult(start, at + 1, |lines|, [at + 1], block[..request.limit], true,
                                        at + 1 >= |lines|))
    ensures |content| + |block| > request.limit && matchLines != [] ==>
              IsSearchPage(lines, hit, request, SearchResult(start, at, |lines|, matchLines, content, true, false))
    ensures |content| + |block| <= request.limit && |matchLines| + 1 < request.maxMatches ==>
              Scanned(lines, hit, request, start, at + 1, at, matchLines + [at + 1], content + block)
    ensures |content| + |block| <= request.limit && |matchLines| + 1 >= request.maxMatches ==>
              IsSearchPage(lines, hit, request,
                           SearchResult(start, at + 1, |lines|, matchLines + [at + 1], content + block,
                                        at + 1 < |lines|, at + 1 >= |lines|))
  {
    BlockGrows(lines, hit, request, start, at, last, matchLines, content, block);
    ContentFits(lines, hit, request, start, at, last, matchLines, content);
    hide IsSearchPage, Scanned, FullExcerpt, Block;
    if |content| + |block| > request.limit {
      PageOutOfRunes(lines, hit, request, start, at, last, matchLines, content, block);
    } else {
      ScanTakes(lines, hit, request, start, at, last, matchLines, content, block);
    }
  }

  method SearchCapturedOutput(lines: seq<Line>, hit: Line -> bool, request: SearchRequest) returns (res: SearchResult)
    requires 1 <= request.limit && 1 <= request.maxMatches
    ensures IsSearchPage(lines, hit, request, res)
  {
    hide IsSearchPage, Scanned, FullExcerpt, MatchNumbers, Block, Excerpt, Shown, LastMatch, Cut;
    var startLine := request.startLine;
    if startLine > |lines| {
      startLine := |lines|;
    }
    var content: string := "";
    var matchLines: seq<nat> := [];
    var nextStart := |lines|;
    var lastEmitted: int := -1;
    var written := 0;
    var contentTruncated := false;

    ghost var last := -1;
    ghost var page: Option<SearchResult> := None;
    ScanStarts(lines, hit, request, startLine);
    var lineIndex := startLine;
    while lineIndex < |lines|
      invariant Scanned(lines, hit, request, startLine, lineIndex, last, matchLines, content)
      invariant startLine <= lineIndex <= |lines| && -1 <= last < lineIndex
      invariant lastEmitted + 1 == EmittedUpTo(lines, request.context, last)
      invariant written == |content| <= request.limit
      invariant |matchLines| < request.maxMatches
      invariant !contentTruncated && page == None
    {
      if !hit(lines[lineIndex]) {
        ScanSkips(lines, hit, request, startLine, lineIndex, last, matchLines, content);
        lineIndex := lineIndex + 1;
        continue;
      }
      var block, blockEnd := RenderBlock(lines, lineIndex, request.context, lastEmitted);
      ScanMatches(lines, hit, request, startLine, lineIndex, last, matchLines, content, block);
      var remaining := request.limit - written;
      if |block| > remaining {
        if |matchLines| == 0 && remaining > 0 {
          content := content + block[..remaining];
          matchLines := matchLines + [lineIndex + 1];
          nextStart := lineIndex + 1;
          page := Some(SearchResult(startLine, nextStart, |lines|, [nextStart], block[..request.limit], true,
                                    nextStart >= |lines|));
        } else {
          nextStart := lineIndex;
          page := Some(SearchResult(startLine, nextStart, |lines|, matchLines, content, true, false));
        }
        contentTruncated := true;
        break;
      }
      content := content + block;
      written := written + |block|;
      matchLines := matchLines + [lineIndex + 1];
      lastEmitted := blockEnd - 1;
      nextStart := lineIndex + 1;
      last := lineIndex;
      if |matchLines| >= request.maxMatches {
        contentTruncated := nextStart < |lines|;
        page := Some(SearchResult(startLine, nextStart, |lines|, matchLines, content, contentTruncated,
                                  nextStart >= |lines|));
        break;
      }
      lineIndex := lineIndex + 1;
    }
    if page == None {
      PageAtEnd(lines, hit, request, startLine, last, matchLines, content);
      page := Some(SearchResult(startLine, |lines|, |lines|, matchLines, content, false, true));
    }
    if !contentTruncated {
      nextStart := |lines|;
    }
    res := SearchResult(startLine, nextStart, |lines|, matchLines, content, contentTruncated, nextStart >= |lines|);
    assert res == page.value;
  }
}
