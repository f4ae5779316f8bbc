/**
 * What a client may rely on across calls: a page is determined by its request,
 * following nextStartLine reports exactly the matching lines, and the walk ends.
 */
module SearchResume {
  import opened Prelude
  import opened OutputSearch

  // ------------------------------------------------------------ match numbers

  lemma {:induction false} MatchNumbersSplit(lines: seq<Line>, hit: Line -> bool, lo: nat, mid: nat, hi: nat)
    requires lo <= mid <= hi <= |lines|
    ensures MatchNumbers(lines, hit, lo, hi) ==
            MatchNumbers(lines, hit, lo, mid) + MatchNumbers(lines, hit, mid, hi)
    decreases hi
  {
    if mid < hi {
      MatchNumbersSplit(lines, hit, lo, mid, hi - 1);
    }
  }

  /** MatchNumbers lists the matching lines of the range: all of them and nothing else. */
  lemma {:induction false} MatchNumbersAreTheMatches(lines: seq<Line>, hit: Line -> bool, lo: nat, hi: nat, n: nat)
    requires lo <= hi <= |lines|
    ensures n in MatchNumbers(lines, hit, lo, hi) <==> lo < n <= hi && hit(lines[n - 1])
    decreases hi
  {
    if lo < hi {
      MatchNumbersAreTheMatches(lines, hit, lo, hi - 1, n);
    }
  }

  /** Each match is listed once, in line order. */
  lemma {:induction false} MatchNumbersIncrease(lines: seq<Line>, hit: Line -> bool, lo: nat, hi: nat, j: nat, k: nat)
    requires lo <= hi <= |lines|
    requires j < k < |MatchNumbers(lines, hit, lo, hi)|
    ensures MatchNumbers(lines, hit, lo, hi)[j] < MatchNumbers(lines, hit, lo, hi)[k]
    decreases hi
  {
    var before := MatchNumbers(lines, hit, lo, hi - 1);
    if k < |before| {
      MatchNumbersIncrease(lines, hit, lo, hi - 1, j, k);
    } else {
      MatchNumbersAreTheMatches(lines, hit, lo, hi - 1, before[j]);
    }
  }

  // ------------------------------------------------------------- determinacy

  lemma {:induction false} ExcerptLengthMonotone(lines: seq<Line>, hit: Line -> bool, lo: nat, hi: nat, hi': nat,
                                                 context: nat, upTo: nat)
    requires hi <= hi' <= |lines| && upTo <= |lines|
    ensures |Excerpt(lines, hit, lo, hi, context, upTo)| <= |Excerpt(lines, hit, lo, hi', context, upTo)|
    decreases upTo
  {
    if upTo > 0 {
      ExcerptLengthMonotone(lines, hit, lo, hi, hi', context, upTo - 1);
      assert Shown(lines, hit, lo, hi, context, upTo - 1) ==> Shown(lines, hit, lo, hi', context, upTo - 1);
    }
  }

  lemma LaterMatchCounts(lines: seq<Line>, hit: Line -> bool, lo: nat, mid: nat, hi: nat)
    requires lo <= mid < hi <= |lines| && hit(lines[hi - 1])
    ensures |MatchNumbers(lines, hit, lo, hi)| > |MatchNumbers(lines, hit, lo, mid)|
  {
    MatchNumbersSplit(lines, hit, lo, mid, hi - 1);
  }

  /** Two valid pages for one request cannot stop at different lines. */
  lemma PageStopsOnce(lines: seq<Line>, hit: Line -> bool, request: SearchRequest, r1: SearchResult, r2: SearchResult)
    requires IsSearchPage(lines, hit, request, r1) && IsSearchPage(lines, hit, request, r2)
    ensures r1.nextStartLine >= r2.nextStartLine
  {
    var start, n1, n2 := r1.startLine, r1.nextStartLine, r2.nextStartLine;
    if n1 < n2 {
      MatchNumbersSplit(lines, hit, start, n1, n2);
      if hit(lines[n2 - 1]) {
        LaterMatchCounts(lines, hit, start, n1, n2);
      }
      if |r1.matchLines| < request.maxMatches {
        var reach := if Cut(lines, hit, request, r1) then n1 else n1 + 1;
        ExcerptLengthMonotone(lines, hit, start, reach, n2, request.context, |lines|);
      }
      assert false;
    }
  }

  /** The page contract leaves nothing open: it fixes every field of the result. */
  lemma PageIsDetermined(lines: seq<Line>, hit: Line -> bool, request: SearchRequest, r1: SearchResult,
                         r2: SearchResult)
    requires IsSearchPage(lines, hit, request, r1) && IsSearchPage(lines, hit, request, r2)
    ensures r1 == r2
  {
    PageStopsOnce(lines, hit, request, r1, r2);
    PageStopsOnce(lines, hit, request, r2, r1);
  }

  // --------------------------------------------------------------- resumption

  datatype Page = Page(request: SearchRequest, result: SearchResult)

  /**
   * A client that starts at line from and passes each nextStartLine on. Context,
   * limit and match budget may differ from call to call.
   */
  ghost predicate Resumes(lines: seq<Line>, hit: Line -> bool, from: nat, pages: seq<Page>)
    decreases pages
  {
    pages != [] ==>
      && pages[0].request.startLine == from
      && 1 <= pages[0].request.limit && 1 <= pages[0].request.maxMatches
      && IsSearchPage(lines, hit, pages[0].request, pages[0].result)
      && Resumes(lines, hit, pages[0].result.nextStartLine, pages[1..])
  }

  function Reported(pages: seq<Page>): seq<nat> {
    if pages == [] then [] else pages[0].result.matchLines + Reported(pages[1..])
  }

  function Reached(from: nat, pages: seq<Page>): nat
    decreases pages
  {
    if pages == [] then from else Reached(pages[0].result.nextStartLine, pages[1..])
  }

  /** A page that is not the last one moves the cursor forward. */
  lemma PageAdvances(lines: seq<Line>, hit: Line -> bool, request: SearchRequest, res: SearchResult)
    requires 1 <= request.limit && 1 <= request.maxMatches
    requires IsSearchPage(lines, hit, request, res)
    ensures res.eof || request.startLine < res.nextStartLine
  {
    assert res.startLine == res.nextStartLine ==> |MatchNumbers(lines, hit, res.startLine, res.nextStartLine)| == 0;
  }

  /** However the walk is paged, it reports exactly the matches it has passed. */
  lemma {:induction false} ResumedSearchIsFilter(lines: seq<Line>, hit: Line -> bool, from: nat, pages: seq<Page>)
    requires Resumes(lines, hit, from, pages) && from <= |lines|
    ensures from <= Reached(from, pages) <= |lines|
    ensures Reported(pages) == MatchNumbers(lines, hit, from, Reached(from, pages))
    decreases pages
  {
    if pages != [] {
      var next := pages[0].result.nextStartLine;
      ResumedSearchIsFilter(lines, hit, next, pages[1..]);
      MatchNumbersSplit(lines, hit, from, next, Reached(from, pages));
    }
  }

  /** A walk that was followed to eof has reported every matching line from its start. */
  lemma ResumedSearchIsComplete(lines: seq<Line>, hit: Line -> bool, from: nat, pages: seq<Page>)
    requires Resumes(lines, hit, from, pages)
    requires pages != [] && pages[|pages| - 1].result.eof
    ensures Reported(pages) == MatchNumbers(lines, hit, Min(from, |lines|), |lines|)
  {
    if from <= |lines| {
      ResumedSearchIsFilter(lines, hit, from, pages);
      ReachedIsLast(lines, hit, from, pages);
    } else {
      var next := pages[0].result.nextStartLine;
      assert next == |lines|;
      ResumedSearchIsFilter(lines, hit, next, pages[1..]);
      if pages[1..] != [] {
        ReachedIsLast(lines, hit, next, pages[1..]);
      }
    }
  }

  lemma {:induction false} ReachedIsLast(lines: seq<Line>, hit: Line -> bool, from: nat, pages: seq<Page>)
    requires Resumes(lines, hit, from, pages) && pages != []
    ensures Reached(from, pages) == pages[|pages| - 1].result.nextStartLine
    ensures pages[|pages| - 1].result.eof ==> Reached(from, pages) == |lines|
    decreases pages
  {
    if |pages| > 1 {
      ReachedIsLast(lines, hit, pages[0].result.nextStartLine, pages[1..]);
    } else {
      assert Reached(from, pages) == Reached(pages[0].result.nextStartLine, pages[1..]);
    }
  }

  /** The walk ends: at most one page per remaining line, and one more, precede eof. */
  lemma {:induction false} ResumedSearchEnds(lines: seq<Line>, hit: Line -> bool, from: nat, pages: seq<Page>)
    requires Resumes(lines, hit, from, pages)
    requires forall k :: 0 <= k < |pages| - 1 ==> !pages[k].result.eof
    ensures |pages| <= Max(0, |lines| - from) + 1
    decreases pages
  {
    if |pages| > 1 {
      PageAdvances(lines, hit, pages[0].request, pages[0].result);
      forall k | 0 <= k < |pages[1..]| - 1 ensures !pages[1..][k].result.eof {
        assert pages[1..][k] == pages[k + 1];
      }
      assert !pages[0].result.eof;
      ResumedSearchEnds(lines, hit, pages[0].result.nextStartLine, pages[1..]);
    }
  }

  // ------------------------------------------------------------------ content

  predicate AtLineStart(before: string) {
    before == "" || before[|before| - 1] == '\n'
  }

  /** part stands in the content, from the start of a line. */
  ghost predicate Prints(content: string, part: string) {
    exists before: string, after: string :: content == before + part + after && AtLineStart(before)
  }

  lemma {:induction false} ExcerptEndsALine(lines: seq<Line>, hit: Line -> bool, lo: nat, hi: nat, context: nat,
                                            upTo: nat)
    requires upTo <= |lines|
    ensures AtLineStart(Excerpt(lines, hit, lo, hi, context, upTo))
    decreases upTo
  {
    if upTo > 0 {
      ExcerptEndsALine(lines, hit, lo, hi, context, upTo - 1);
    }
  }

  lemma PrintsLonger(content: string, part: string, tail: string)
    requires Prints(content, part)
    ensures Prints(content + tail, part)
  {
    var before: string, after: string :| content == before + part + after && AtLineStart(before);
    assert content + tail == before + part + (after + tail);
  }

  lemma {:induction false} ExcerptPrints(lines: seq<Line>, hit: Line -> bool, lo: nat, hi: nat, context: nat, upTo: nat,
                                         i: nat)
    requires i < upTo <= |lines| && Shown(lines, hit, lo, hi, context, i)
    ensures Prints(Excerpt(lines, hit, lo, hi, context, upTo), FormatLine(lines, i))
    decreases upTo
  {
    hide Prints, FormatLine;
    var last := upTo - 1;
    var before := Excerpt(lines, hit, lo, hi, context, last);
    var part := FormatLine(lines, last);
    if i == last {
      ExcerptEndsALine(lines, hit, lo, hi, context, last);
      LastIsPrinted(before, part);
    } else {
      ExcerptPrints(lines, hit, lo, hi, context, last, i);
      PrintsLonger(before, FormatLine(lines, i), if Shown(lines, hit, lo, hi, context, last) then part else "");
    }
  }

  lemma LastIsPrinted(before: string, part: string)
    requires AtLineStart(before)
    ensures Prints(before + part, part)
  {
    assert before + part == before + part + "";
  }

  /**
   * Every reported match is printed with its number, even when an earlier window
   * swallowed its line; only a lone first match may be cut, and then the page is
   * exactly as long as the budget allows.
   */
  lemma EveryMatchIsPrinted(lines: seq<Line>, hit: Line -> bool, request: SearchRequest, res: SearchResult, n: nat)
    requires IsSearchPage(lines, hit, request, res) && n in res.matchLines
    ensures |res.content| <= request.limit
    ensures 1 <= n <= |lines| && hit(lines[n - 1])
    ensures || Prints(res.content, Decimal.FormatUint(n) + ":" + lines[n - 1] + "\n")
            || (res.matchLines == [n] && |res.content| == request.limit)
  {
    hide Prints, Excerpt, Shown, MatchNumbers;
    var start, next := res.startLine, res.nextStartLine;
    MatchNumbersAreTheMatches(lines, hit, start, next, n);
    if !Cut(lines, hit, request, res) {
      ShownAtMatch(lines, hit, start, next, request.context, n - 1);
      ExcerptPrints(lines, hit, start, next, request.context, |lines|, n - 1);
      assert res.content == FullExcerpt(lines, hit, start, next, request.context);
    }
  }

  /** So is every line within the context of a reported match. */
  lemma EveryContextLineIsPrinted(lines: seq<Line>, hit: Line -> bool, request: SearchRequest, res: SearchResult,
                                  n: nat, i: nat)
    requires IsSearchPage(lines, hit, request, res) && n in res.matchLines
    requires i < |lines| && n - 1 - request.context <= i <= n - 1 + request.context
    ensures || Prints(res.content, Decimal.FormatUint(i + 1) + ":" + lines[i] + "\n")
            || (res.matchLines == [n] && |res.content| == request.limit)
  {
    hide Prints, Excerpt, MatchNumbers;
    var start, next := res.startLine, res.nextStartLine;
    MatchNumbersAreTheMatches(lines, hit, start, next, n);
    if !Cut(lines, hit, request, res) {
      assert Shown(lines, hit, start, next, request.context, i);
      hide Shown;
      ExcerptPrints(lines, hit, start, next, request.context, |lines|, i);
      assert res.content == FullExcerpt(lines, hit, start, next, request.context);
    }
  }

  function Concat(parts: seq<string>): string {
    if parts == [] then "" else Concat(parts[..|parts| - 1]) + parts[|parts| - 1]
  }

  ghost predicate Increasing(s: seq<nat>) {
    forall i, j :: 0 <= i < j < |s| ==> s[i] < s[j]
  }

  /** These lines, each with its number and a newline. */
  ghost predicate Numbered(lines: seq<Line>, at: seq<nat>, parts: seq<string>) {
    && |parts| == |at|
    && forall j :: 0 <= j < |at| ==>
         at[j] < |lines| && parts[j] == Decimal.FormatUint(at[j] + 1) + ":" + lines[at[j]] + "\n"
  }

  /** These are exactly the shown positions before upTo. */
  ghost predicate Covers(at: seq<nat>, lines: seq<Line>, hit: Line -> bool, lo: nat, hi: nat, context: nat, upTo: nat) {
    forall i: nat :: i in at <==> i < upTo && Shown(lines, hit, lo, hi, context, i)
  }

  lemma {:induction false} ExcerptIsNumbered(lines: seq<Line>, hit: Line -> bool, lo: nat, hi: nat, context: nat,
                                             upTo: nat)
    returns (at: seq<nat>, parts: seq<string>)
    requires upTo <= |lines|
    ensures Increasing(at) && Numbered(lines, at, parts) && Excerpt(lines, hit, lo, hi, context, upTo) == Concat(parts)
    ensures Covers(at, lines, hit, lo, hi, context, upTo)
    decreases upTo
  {
    if upTo == 0 {
      at, parts := [], [];
    } else {
      var last := upTo - 1;
      var at', parts' := ExcerptIsNumbered(lines, hit, lo, hi, context, last);
      CoverOneMore(at', lines, hit, lo, hi, context, last);
      hide Numbered, Increasing, Concat, Covers, Shown, FormatLine;
      if Shown(lines, hit, lo, hi, context, last) {
        at, parts := at' + [last], parts' + [FormatLine(lines, last)];
        NumberOneMore(lines, at', parts', last);
      } else {
        at, parts := at', parts';
      }
    }
  }

  lemma CoverOneMore(at: seq<nat>, lines: seq<Line>, hit: Line -> bool, lo: nat, hi: nat, context: nat, last: nat)
    requires Covers(at, lines, hit, lo, hi, context, last)
    ensures forall i :: i in at ==> i < last
    ensures Covers(if Shown(lines, hit, lo, hi, context, last) then at + [last]
                   else at, lines, hit, lo, hi, context, last + 1)
  {
    hide Shown;
  }

  lemma NumberOneMore(lines: seq<Line>, at: seq<nat>, parts: seq<string>, last: nat)
    requires Increasing(at) && Numbered(lines, at, parts) && last < |lines| && forall i :: i in at ==> i < last
    ensures Increasing(at + [last]) && Numbered(lines, at + [last], parts + [FormatLine(lines, last)])
    ensures Concat(parts + [FormatLine(lines, last)]) == Concat(parts) + FormatLine(lines, last)
  {
    assert (parts + [FormatLine(lines, last)])[..|parts|] == parts;
    assert forall j :: 0 <= j < |at| ==> at[j] in at;
  }

  /**
   * The output is well formed: unless it was cut, a page is exactly the lines within
   * the context of a reported match, once each, in line order, each with its number,
   * however the windows overlap.
   */
  lemma OutputIsNumberedLines(lines: seq<Line>, hit: Line -> bool, request: SearchRequest, res: SearchResult)
    returns (at: seq<nat>, parts: seq<string>)
    requires IsSearchPage(lines, hit, request, res)
    requires |res.matchLines| != 1 || |res.content| < request.limit
    ensures Increasing(at) && Numbered(lines, at, parts) && res.content == Concat(parts)
    ensures forall i: nat ::
              i in at <==>
              i < |lines| && exists n :: n in res.matchLines && n - 1 - request.context <= i <= n - 1 + request.context
  {
    hide Concat, Numbered, Increasing, Excerpt, Shown, MatchNumbers;
    var start, next := res.startLine, res.nextStartLine;
    at, parts := ExcerptIsNumbered(lines, hit, start, next, request.context, |lines|);
    assert res.content == FullExcerpt(lines, hit, start, next, request.context);
    assert res.matchLines == MatchNumbers(lines, hit, start, next);
    forall i: nat
      ensures Shown(lines, hit, start, next, request.context, i) <==>
              exists n :: n in res.matchLines && n - 1 - request.context <= i <= n - 1 + request.context
    {
      ShownByMatch(lines, hit, start, next, request.context, i);
    }
  }

  lemma ShownByMatch(lines: seq<Line>, hit: Line -> bool, lo: nat, hi: nat, context: nat, i: nat)
    requires lo <= hi <= |lines|
    ensures Shown(lines, hit, lo, hi, context, i) <==>
            exists n :: n in MatchNumbers(lines, hit, lo, hi) && n - 1 - context <= i <= n - 1 + context
  {
    hide MatchNumbers;
    if Shown(lines, hit, lo, hi, context, i) {
      var m :| lo <= m < hi <= |lines| && hit(lines[m]) && m - context <= i <= m + context;
      MatchNumbersAreTheMatches(lines, hit, lo, hi, m + 1);
      assert m + 1 in MatchNumbers(lines, hit, lo, hi);
    }
    if exists n :: n in MatchNumbers(lines, hit, lo, hi) && n - 1 - context <= i <= n - 1 + context {
      var n :| n in MatchNumbers(lines, hit, lo, hi) && n - 1 - context <= i <= n - 1 + context;
      MatchNumbersAreTheMatches(lines, hit, lo, hi, n);
    }
  }

  /** A page tells where it ends, why it stopped, and never exceeds its budgets. */
  lemma PageKeepsItsBudgets(lines: seq<Line>, hit: Line -> bool, request: SearchRequest, res: SearchResult)
    requires IsSearchPage(lines, hit, request, res)
    ensures |res.content| <= request.limit && |res.matchLines| <= request.maxMatches
    ensures res.startLine == (if request.startLine < |lines| then request.startLine else |lines|)
    ensures res.totalLines == |lines| && (res.eof <==> res.nextStartLine == |lines|)
    ensures !res.eof ==>
              || |res.matchLines| == request.maxMatches
              || |res.content| == request.limit
              || (res.matchLines != [] && hit(lines[res.nextStartLine]))
    ensures !res.eof ==> res.contentTruncated
  {
  }

  lemma ShownAtMatch(lines: seq<Line>, hit: Line -> bool, lo: nat, hi: nat, context: nat, m: nat)
    requires lo <= m < hi <= |lines| && hit(lines[m])
    ensures Shown(lines, hit, lo, hi, context, m)
  {
  }
}
