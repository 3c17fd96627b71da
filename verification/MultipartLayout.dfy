/**
 Where a serialized form holds its delimiters and its empty lines, and why no other way of cutting it into
 parts gives the same contents.
 */
module MultipartLayout {
  import opened Multipart
  import opened MultipartTheorem

  const EMPTY_LINE: string := "\r\n\r\n"

  // ---------- header text ----------

  predicate HeadLine(line: string) {
    |line| > 0 && NoReturn(line) && line[0] != '-'
  }

  predicate HeadLines(lines: seq<string>) {
    forall i :: 0 <= i < |lines| ==> HeadLine(lines[i])
  }

  // A carriage return in header text ends the text, or ends its last line, or comes before another line.
  predicate LineEnd(h: string, q: nat)
    requires q < |h|
  {
    || q == |h| - 2
    || (q == |h| - 4 && h[q + 2] == '\r')
    || (q + 2 < |h| && h[q + 2] != '\r' && h[q + 2] != '-')
  }

  lemma {:induction false} HeaderEnds(lines: seq<string>)
    requires HeadLines(lines)
    ensures var h := HeaderText(lines);
            && |h| >= 2 && h[|h| - 2] == '\r' && h[|h| - 1] == '\n'
            && (lines != [] ==> h[0] != '\r' && h[0] != '-' && |h| >= 5)
            && (lines == [] ==> |h| == 2)
    decreases |lines|
  {
    if lines != [] {
      assert HeadLine(lines[0]);
      HeaderEnds(lines[1..]);
      var h := HeaderText(lines);
      var line, rest := lines[0], HeaderText(lines[1..]);
      assert h == line + CRLF + rest;
      hide HeaderText;
      assert h[|h| - 2] == rest[|rest| - 2] && h[|h| - 1] == rest[|rest| - 1] && h[0] == line[0];
    }
  }

  // In a line and its end the one carriage return is at the end.
  lemma LineReturn(line: string, rest: string)
    requires NoReturn(line)
    ensures forall q :: 0 <= q < |line| + 2 && q != |line| ==> (line + CRLF + rest)[q] != '\r'
    ensures rest != "" ==> (line + CRLF + rest)[|line| + 2] == rest[0]
  {
  }

  lemma {:induction false} HeaderReturns(lines: seq<string>, q: nat)
    requires HeadLines(lines) && q < |HeaderText(lines)| && HeaderText(lines)[q] == '\r'
    ensures LineEnd(HeaderText(lines), q)
    decreases |lines|
  {
    if lines != [] {
      assert HeadLine(lines[0]);
      HeaderEnds(lines[1..]);
      var h := HeaderText(lines);
      var line, rest := lines[0], HeaderText(lines[1..]);
      assert h == line + CRLF + rest;
      if q >= |line| + 2 {
        assert h[q] == rest[q - |line| - 2];
        HeaderReturns(lines[1..], q - |line| - 2);
        hide HeaderText;
        assert q + 2 < |h| ==> h[q + 2] == rest[q - |line|];
      } else {
        LineReturn(line, rest);
        assert lines[1..] == [] ==> rest == CRLF;
        hide HeaderText;
      }
    }
  }

  lemma ItemLines(accepts: HeaderParser, item: Item, boundary: string)
    requires PlainItem(accepts, item, boundary)
    ensures HeadLines(Lines(item))
  {
    var lines := Lines(item);
    forall i | 0 <= i < |lines|
      ensures HeadLine(lines[i])
    {
      assert PlainLine(accepts, lines[i]);
      assert Disposition(item)[0] == 'C' && TypeLine(item)[0] == 'C';
    }
  }

  // ---------- one item behind a delimiter ----------

  predicate Headed(items: seq<Item>) {
    forall i :: 0 <= i < |items| ==> HeadLines(Lines(items[i]))
  }

  // The text from `at` on is what follows a delimiter.
  predicate TailAt(s: string, items: seq<Item>, boundary: string, at: nat) {
    at <= |s| && s[at..] == Tail(items, boundary)
  }

  // Where the content of the first item begins and ends.
  function Begins(items: seq<Item>, at: nat): nat
    requires items != []
  {
    at + 2 + |HeaderText(Lines(items[0]))|
  }

  function Ends(items: seq<Item>, at: nat): nat
    requires items != []
  {
    Begins(items, at) + |items[0].content|
  }

  lemma TailParts(t: string, h: string, c: string, d: string, more: string)
    requires t == (CRLF + h) + (c + (d + more))
    ensures |t| == 2 + |h| + |c| + |d| + |more| && t[0] == '\r' && t[1] == '\n' && t[2..2 + |h|] == h
    ensures t[2 + |h|..2 + |h| + |c|] == c && t[2 + |h| + |c|..2 + |h| + |c| + |d|] == d
    ensures t[2 + |h| + |c| + |d|..] == more
  {
  }

  lemma Within(s: string, at: nat, i: nat, j: nat)
    requires at <= |s| && i <= j <= |s| - at
    ensures s[at..][i..j] == s[at + i..at + j] && s[at..][i..] == s[at + i..]
  {
  }

  // The same in a text that ends so.
  lemma TailPartsAt(s: string, at: nat, h: string, c: string, d: string, more: string)
    requires at <= |s| && s[at..] == (CRLF + h) + (c + (d + more))
    ensures var b := at + 2 + |h|;
            var e := b + |c|;
            && e + |d| <= |s| && s[at] == '\r' && s[at + 1] == '\n' && s[at + 2..b] == h && s[b..e] == c
            && s[e..e + |d|] == d && s[e + |d|..] == more
  {
    var t := s[at..];
    TailParts(t, h, c, d, more);
    assert t[0] == s[at] && t[1] == s[at + 1];
    Within(s, at, 2, 2 + |h|);
    Within(s, at, 2 + |h|, 2 + |h| + |c|);
    Within(s, at, 2 + |h| + |c|, 2 + |h| + |c| + |d|);
    Within(s, at, 2 + |h| + |c| + |d|, |t|);
  }

  lemma TailText(items: seq<Item>, boundary: string)
    requires items != []
    ensures Tail(items, boundary) ==
            (CRLF + HeaderText(Lines(items[0]))) + (items[0].content + (Delimiter(boundary) + Tail(items[1..], boundary)))
  {
    hide HeaderText, Lines, Delimiter;
    assert Rest(items[0].content, items[1..], boundary) == items[0].content + (Delimiter(boundary) + Tail(items[1..], boundary));
  }

  lemma TailStep(s: string, items: seq<Item>, boundary: string, at: nat)
    requires items != [] && TailAt(s, items, boundary, at)
    ensures var b, e := Begins(items, at), Ends(items, at);
            var next := e + |Delimiter(boundary)|;
            && b <= e <= next <= |s| && s[at] == '\r' && s[at + 1] == '\n'
            && s[at + 2..b] == HeaderText(Lines(items[0])) && s[b..e] == items[0].content
            && s[e..next] == Delimiter(boundary) && TailAt(s, items[1..], boundary, next)
  {
    hide HeaderText, Lines, Delimiter, Tail, Rest;
    TailText(items, boundary);
    TailPartsAt(s, at, HeaderText(Lines(items[0])), items[0].content, Delimiter(boundary), Tail(items[1..], boundary));
  }

  // The carriage returns of an item's header, in the whole text.
  lemma HeaderReturnAt(s: string, items: seq<Item>, boundary: string, at: nat, q: nat)
    requires items != [] && Headed(items) && TailAt(s, items, boundary, at)
    ensures var b := Begins(items, at);
            && at + 7 <= b <= |s| && s[at + 1] == '\n' && s[at + 2] != '\r' && s[at + 2] != '-'
            && (at + 2 <= q < b && s[q] == '\r' ==>
                 || q == b - 2
                 || (q == b - 4 && s[q + 2] == '\r')
                 || (q + 2 < b && s[q + 2] != '\r' && s[q + 2] != '-'))
  {
    var h, b := HeaderText(Lines(items[0])), Begins(items, at);
    TailStep(s, items, boundary, at);
    assert HeadLines(Lines(items[0]));
    HeaderEnds(Lines(items[0]));
    assert b == at + 2 + |h|;
    hide HeaderText, Lines, TailAt, Tail, HeadLines, Headed, Begins, Ends, Delimiter;
    assert h[0] == s[at + 2..b][0] == s[at + 2];
    if at + 2 <= q < b {
      assert h[q - at - 2] == s[at + 2..b][q - at - 2] == s[q];
      assert q + 2 < b ==> h[q - at] == s[at + 2..b][q - at] == s[q + 2];
      if s[q] == '\r' {
        HeaderReturns(Lines(items[0]), q - at - 2);
      }
    }
  }

  lemma OccursReads(s: string, t: string, q: nat)
    requires |t| >= 4
    ensures OccursAt(s, t, q) ==>
              q + 4 <= |s| && s[q] == t[0] && s[q + 1] == t[1] && s[q + 2] == t[2] && s[q + 3] == t[3]
  {
    assert OccursAt(s, t, q) ==> s[q + 0] == t[0] && s[q + 1] == t[1] && s[q + 2] == t[2] && s[q + 3] == t[3];
  }

  // What of a delimiter that ends at `at` is not a carriage return.
  lemma DelimiterReturns(s: string, boundary: string, at: nat)
    requires NoReturn(boundary) && |Delimiter(boundary)| <= at <= |s|
    requires s[at - |Delimiter(boundary)|..at] == Delimiter(boundary)
    ensures forall q :: at - |Delimiter(boundary)| < q < at ==> s[q] != '\r'
  {
    var from := at - |Delimiter(boundary)|;
    forall q | from < q < at
      ensures s[q] != '\r'
    {
      assert s[q] == s[from..at][q - from];
      DelimiterReturn(boundary, q - from);
    }
  }

  // No delimiter begins between the one before an item and the end of the item's header.
  lemma NoDelimiterInHeader(s: string, items: seq<Item>, boundary: string, at: nat, q: nat)
    requires items != [] && Headed(items) && TailAt(s, items, boundary, at) && NoReturn(boundary)
    requires |Delimiter(boundary)| <= at && s[at - |Delimiter(boundary)|..at] == Delimiter(boundary)
    requires at - |Delimiter(boundary)| < q < Begins(items, at) - 2
    ensures !OccursAt(s, Delimiter(boundary), q)
  {
    HeaderReturnAt(s, items, boundary, at, q);
    DelimiterReturns(s, boundary, at);
    OccursReads(s, Delimiter(boundary), q);
    hide OccursAt, TailAt, Headed, HeaderText, Lines;
  }

  lemma DelimiterReturn(boundary: string, k: nat)
    requires NoReturn(boundary) && 0 < k < |Delimiter(boundary)|
    ensures Delimiter(boundary)[k] != '\r'
  {
    if k >= 4 {
      assert Delimiter(boundary)[k] == boundary[k - 4];
    }
  }

  // ---------- the last delimiter ----------

  lemma LastTail(s: string, boundary: string, at: nat)
    requires TailAt(s, [], boundary, at) && |Delimiter(boundary)| <= at && NoReturn(boundary)
    requires s[at - |Delimiter(boundary)|..at] == Delimiter(boundary)
    ensures |s| == at + 4 && s[at - |Delimiter(boundary)|] == '\r'
    ensures forall q :: at - |Delimiter(boundary)| < q < at + 2 ==> s[q] != '\r'
    ensures s[at - |Delimiter(boundary)| + 2] == '-' && s[at - |Delimiter(boundary)| + 3] == '-'
  {
    var d := Delimiter(boundary);
    var from := at - |d|;
    DelimiterReturns(s, boundary, at);
    assert s[at..] == DASH + CRLF;
    hide TailAt, NoReturn;
    assert s[at] == s[at..][0] && s[at + 1] == s[at..][1];
    assert s[from..at][0] == d[0] == '\r' && s[from..at][2] == d[2] == '-' && s[from..at][3] == d[3] == '-';
  }

  // ---------- cutting a text into parts ----------

  // The part that a parser has read from `b` up to `e`.
  datatype Span = Span(b: nat, e: nat)

  function Texts(s: string, spans: seq<Span>): seq<string>
    requires forall k :: 0 <= k < |spans| ==> spans[k].b <= spans[k].e <= |s|
  {
    if spans == [] then [] else [s[spans[0].b..spans[0].e]] + Texts(s, spans[1..])
  }

  // A part comes after an empty line.
  predicate Opened(s: string, span: Span) {
    span.b <= span.e <= |s| && 4 <= span.b && OccursAt(s, EMPTY_LINE, span.b - 4)
  }

  // A part that is closed ends at a delimiter that is read before `limit`.
  predicate Closed(s: string, d: string, span: Span, limit: nat) {
    OccursAt(s, d, span.e) && span.e + |d| <= limit
  }

  // A part that is not closed holds no delimiter up to `at`, where the parser has come to.
  predicate Unclosed(s: string, d: string, span: Span, at: nat) {
    && span.e == at
    && (forall q :: span.b <= q < at ==> !OccursAt(s, d, q))
    && (at == span.b || |s| - at >= |d|)
  }

  // The parts of a parser that has read up to `at`; the last may be unfinished.
  ghost predicate Spanned(s: string, d: string, spans: seq<Span>, at: nat, unfinished: bool) {
    && at <= |s|
    && (forall k :: 0 <= k < |spans| ==> Opened(s, spans[k]))
    && (forall k :: 0 <= k < |spans| - 1 ==> Closed(s, d, spans[k], spans[k + 1].b))
    && (spans != [] ==> var last := spans[|spans| - 1];
                        if unfinished then Unclosed(s, d, last, at) else Closed(s, d, last, at))
  }

  // At the end no more than a delimiter is left of an unfinished part.
  predicate Finished(s: string, d: string, at: nat, unfinished: bool) {
    unfinished ==> |s| - at <= |d|
  }

  lemma SpannedRest(s: string, d: string, spans: seq<Span>, at: nat, unfinished: bool)
    requires |spans| >= 2 && Spanned(s, d, spans, at, unfinished)
    ensures Spanned(s, d, spans[1..], at, unfinished) && Closed(s, d, spans[0], spans[1].b)
  {
    hide OccursAt;
    forall k | 0 <= k < |spans[1..]| - 1
      ensures Closed(s, d, spans[1..][k], spans[1..][k + 1].b)
    {
      assert Closed(s, d, spans[k + 1], spans[k + 2].b);
    }
  }

  // An unfinished part that begins behind the begin `b` of the last content and ends behind its end is another text.
  lemma UnfinishedBehind(s: string, d: string, b: nat, e: nat, span: Span, end: nat)
    requires b <= e && |s| == e + |d| + 4 && |d| >= 4 && OccursAt(s, d, e)
    requires s[e] == '\r' && s[e + 2] == '-' && s[e + 3] == '-'
    requires forall q :: e < q < e + |d| + 2 ==> s[q] != '\r'
    requires Opened(s, span) && Unclosed(s, d, span, end) && end <= |s| <= end + |d|
    requires span.b > b
    ensures span.e > e ==> s[span.b..span.e] != s[b..e]
  {
    if span.b > e {
      BehindTheEnd(s, e, b, span.b, |d|);
    }
  }

  lemma ClosedBehind(s: string, d: string, e: nat, span: Span, end: nat)
    requires |s| == e + |d| + 4 && |d| >= 4 && d[0] == '\r' && forall q :: e < q < e + |d| + 2 ==> s[q] != '\r'
    requires Closed(s, d, span, end)
    ensures span.e <= e
  {
    OccursReads(s, d, span.e);
  }

  // One part that begins behind the begin of the last content is not that content.
  lemma LastBehind(s: string, items: seq<Item>, boundary: string, at: nat, span: Span, end: nat, unfinished: bool)
    requires |items| == 1 && TailAt(s, items, boundary, at) && NoReturn(boundary)
    requires Spanned(s, Delimiter(boundary), [span], end, unfinished) && Finished(s, Delimiter(boundary), end, unfinished)
    requires span.b > Begins(items, at)
    ensures s[span.b..span.e] != items[0].content
  {
    var d, c := Delimiter(boundary), items[0].content;
    var b, e := Begins(items, at), Ends(items, at);
    TailStep(s, items, boundary, at);
    assert items[1..] == [] && e == b + |c| && Opened(s, [span][0]);
    assert if unfinished then Unclosed(s, d, [span][0], end) else Closed(s, d, [span][0], end);
    assert d[0] == '\r' && |d| >= 4;
    hide Begins, Ends, HeaderText, Lines, OccursAt, Delimiter, Unclosed, Closed, Opened, Spanned;
    LastTail(s, boundary, e + |d|);
    OccursWhole(s, d, e);
    hide TailAt, NoReturn;
    if unfinished {
      UnfinishedBehind(s, d, b, e, span, end);
    } else {
      ClosedBehind(s, d, e, span, end);
    }
  }

  lemma OccursWhole(s: string, d: string, e: nat)
    requires e + |d| <= |s| && s[e..e + |d|] == d
    ensures OccursAt(s, d, e)
  {
    assert forall k :: 0 <= k < |d| ==> s[e..e + |d|][k] == d[k];
  }

  // The one empty line that ends behind the last content is its own end and the begin of the delimiter.
  lemma BehindTheEnd(s: string, e: nat, from: nat, b: nat, n: nat)
    requires |s| == e + n + 4 && n >= 4 && s[e] == '\r' && s[e + 2] == '-' && s[e + 3] == '-'
    requires forall q :: e < q < e + n + 2 ==> s[q] != '\r'
    requires b > e && b >= 4 && OccursAt(s, EMPTY_LINE, b - 4)
    ensures b == e + 2 && s[b..e + 4] == "--" && (from + 2 == e ==> s[from..e] != "--")
  {
    OccursReads(s, EMPTY_LINE, b - 4);
    hide OccursAt;
    assert from + 2 == e ==> s[from..e][0] == s[from];
  }

  // After a part that ends behind the end of a content, the next begins behind the begin of the next content.
  lemma NextBehind(s: string, more: seq<Item>, boundary: string, next: nat, span: Span, b: nat)
    requires more != [] && Headed(more) && TailAt(s, more, boundary, next) && NoReturn(boundary)
    requires |Delimiter(boundary)| <= next && s[next - |Delimiter(boundary)|..next] == Delimiter(boundary)
    requires Closed(s, Delimiter(boundary), span, b)
    ensures span.e > next - |Delimiter(boundary)| ==> b > Begins(more, next)
  {
    assert |Delimiter(boundary)| >= 4;
    hide OccursAt, Delimiter, NoReturn, TailAt, Headed, Begins;
    if next - |Delimiter(boundary)| < span.e < Begins(more, next) - 2 {
      NoDelimiterInHeader(s, more, boundary, next, span.e);
    }
  }

  lemma {:induction false} SameTexts(s: string, items: seq<Item>, spans: seq<Span>)
    requires items != [] && spans != [] && forall k :: 0 <= k < |spans| ==> spans[k].b <= spans[k].e <= |s|
    requires Texts(s, spans) == Contents(items)
    ensures s[spans[0].b..spans[0].e] == items[0].content && Texts(s, spans[1..]) == Contents(items[1..])
  {
    assert Texts(s, spans)[0] == s[spans[0].b..spans[0].e] && Texts(s, spans)[1..] == Texts(s, spans[1..]);
    assert Contents(items)[0] == items[0].content && Contents(items)[1..] == Contents(items[1..]);
  }

  /**
   Parts that begin behind the begin of the first content are not the contents, whatever delimiters the contents
   and the header lines may form together: a part of the right length then ends behind the end of its content,
   and the next begins behind the begin of the next content.
   */
  lemma {:induction false} NeverCatchesUp(s: string, items: seq<Item>, boundary: string, at: nat, spans: seq<Span>,
                                          end: nat, unfinished: bool)
    requires items != [] && Headed(items) && TailAt(s, items, boundary, at) && NoReturn(boundary)
    requires |spans| == |items| && Spanned(s, Delimiter(boundary), spans, end, unfinished)
    requires Finished(s, Delimiter(boundary), end, unfinished)
    requires spans[0].b > Begins(items, at)
    ensures Texts(s, spans) != Contents(items)
    decreases |items|
  {
    hide HeaderText, Lines, OccursAt, Delimiter, NoReturn, TailAt, Texts, Contents, Closed, Finished;
    if Texts(s, spans) == Contents(items) {
      SameTexts(s, items, spans);
      if |items| == 1 {
        assert spans == [spans[0]];
        LastBehind(s, items, boundary, at, spans[0], end, unfinished);
      } else {
        var d, e, more := Delimiter(boundary), Ends(items, at), items[1..];
        TailStep(s, items, boundary, at);
        SpannedRest(s, d, spans, end, unfinished);
        assert Headed(more) && Opened(s, spans[0]) && e == Begins(items, at) + |items[0].content|;
        hide Ends, Begins, Headed, Opened, Spanned;
        NextBehind(s, more, boundary, e + |d|, spans[0], spans[1].b);
        NeverCatchesUp(s, more, boundary, e + |d|, spans[1..], end, unfinished);
      }
    }
  }
}
