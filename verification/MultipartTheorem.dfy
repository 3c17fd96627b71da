// What the multipart parser makes of a serialized form, in whatever pieces it comes.
module MultipartTheorem {
  import opened Multipart
  import opened MultipartHeaders

  // ---------- the serialized text as the parser reads it ----------

  function Lines(item: Item): (r: seq<string>)
    ensures |r| >= 1
  {
    if item.contentType != "" then [Disposition(item), TypeLine(item)] else [Disposition(item)]
  }

  // Header lines and the empty line.
  function HeaderText(lines: seq<string>): string {
    if lines == [] then CRLF else lines[0] + CRLF + HeaderText(lines[1..])
  }

  // What comes after a delimiter.
  function Tail(items: seq<Item>, boundary: string): string
    decreases |items|, 0
  {
    if items == [] then DASH + CRLF else CRLF + HeaderText(Lines(items[0])) + Rest(items[0].content, items[1..], boundary)
  }

  // What comes after the part of a content that has been read.
  function Rest(left: string, items: seq<Item>, boundary: string): string
    decreases |items|, 1
  {
    left + (Delimiter(boundary) + Tail(items, boundary))
  }

  lemma TwoLines(front: string, first: string, second: string)
    ensures HeaderText([first, second]) == first + CRLF + (second + CRLF + CRLF)
    ensures HeaderText([first]) == first + CRLF + CRLF
    ensures front + CRLF + first + CRLF + (second + CRLF) + CRLF == front + (CRLF + (first + CRLF + (second + CRLF + CRLF)))
    ensures front + CRLF + first + CRLF + "" + CRLF == front + (CRLF + (first + CRLF + CRLF))
  {
    assert [first, second][1..] == [second] && [second][1..] == [] && [first][1..] == [];
    assert HeaderText([second]) == second + CRLF + CRLF;
    hide HeaderText;
    assert front + CRLF + first + CRLF + "" == front + CRLF + first + CRLF;
    assert front + CRLF + first + CRLF + CRLF == front + (CRLF + (first + CRLF + CRLF));
  }

  lemma BeginIsHeaders(item: Item, boundary: string)
    ensures ItemBegin(item, boundary) == DASH + boundary + (CRLF + HeaderText(Lines(item)))
  {
    TwoLines(DASH + boundary, Disposition(item), TypeLine(item));
    hide HeaderText, Disposition, TypeLine;
  }

  lemma Regroup(dash: string, bd: string, head: string, content: string, more: string)
    ensures (dash + bd + head) + content + CRLF + (dash + bd + more) ==
            dash + bd + (head + (content + ((CRLF + dash + bd) + more)))
  {
  }

  // The serialized form is its opening delimiter and what follows it.
  lemma {:induction false} SerializeIsTail(items: seq<Item>, boundary: string)
    ensures Serialize(items, boundary) == DASH + boundary + Tail(items, boundary)
  {
    if items == [] {
      assert "" + DASH + boundary + DASH + CRLF == DASH + boundary + (DASH + CRLF);
    } else {
      var item := items[0];
      SerializeIsTail(items[1..], boundary);
      BeginIsHeaders(item, boundary);
      Regroup(DASH, boundary, CRLF + HeaderText(Lines(item)), item.content, Tail(items[1..], boundary));
      SerializeMore(items, boundary);
      hide Serialize, ItemBegin, Lines, HeaderText;
      assert Tail(items, boundary) ==
             (CRLF + HeaderText(Lines(item))) + (item.content + (Delimiter(boundary) + Tail(items[1..], boundary)));
    }
  }

  lemma SerializeMore(items: seq<Item>, boundary: string)
    requires items != []
    ensures Serialize(items, boundary) ==
            ItemBegin(items[0], boundary) + items[0].content + CRLF + Serialize(items[1..], boundary)
  {
    hide ItemBegin;
    Four(ItemBegin(items[0], boundary) + items[0].content + CRLF, ItemsText(items[1..], boundary), DASH, boundary);
  }

  lemma Four(front: string, rest: string, dash: string, bd: string)
    ensures (front + rest) + dash + bd + dash + CRLF == front + (rest + dash + bd + dash + CRLF)
  {
  }

  // ---------- finding a delimiter ----------

  predicate NoReturn(s: string) {
    forall i :: 0 <= i < |s| ==> s[i] != '\r'
  }

  // A content that does not contain the delimiter.
  ghost predicate Free(content: string, boundary: string) {
    forall i :: 0 <= i <= |content| ==> !OccursAt(content, Delimiter(boundary), i)
  }

  lemma OccursInFront(s: string, more: string, t: string, i: nat)
    requires i + |t| <= |s|
    ensures OccursAt(s + more, t, i) <==> OccursAt(s, t, i)
  {
    assert forall j :: 0 <= j < |s| ==> (s + more)[j] == s[j];
  }

  // A text that starts with a carriage return and has no other does not begin inside what it follows.
  lemma NoEarlier(front: string, d: string, i: nat)
    requires |d| > 0 && d[0] == '\r' && NoReturn(d[1..]) && i < |front|
    requires !OccursAt(front, d, i)
    ensures !OccursAt(front + d, d, i)
  {
    if i + |d| <= |front| {
      OccursInFront(front, d, d, i);
    } else {
      var k := |front| - i;
      assert d[1..][k - 1] == d[k];
      assert (front + d)[i + k] == d[0];
    }
  }

  lemma FindIn(buffer: string, unread: string, front: string, d: string, more: string)
    requires buffer + unread == front + (d + more) && |d| > 0
    requires forall i :: 0 <= i < |front| ==> !OccursAt(front + d, d, i)
    ensures Find(buffer, d) == if |buffer| >= |front| + |d| then |front| else |buffer|
  {
    FindIs(buffer, d, 0);
    assert front + (d + more) == (front + d) + more;
    hide Find;
    forall i | 0 <= i < |front|
      ensures !OccursAt(buffer, d, i)
    {
      if i + |d| <= |buffer| {
        OccursInFront(buffer, unread, d, i);
        OccursInFront(front + d, more, d, i);
      }
    }
    if |buffer| >= |front| + |d| {
      OccursInFront(buffer, unread, d, |front|);
      assert forall k :: 0 <= k < |d| ==> (front + (d + more))[|front| + k] == d[k];
    }
  }

  lemma FindLine(buffer: string, unread: string, line: string, more: string)
    requires buffer + unread == line + (CRLF + more) && NoReturn(line)
    ensures Find(buffer, CRLF) == if |buffer| >= |line| + 2 then |line| else |buffer|
  {
    forall i | 0 <= i < |line|
      ensures !OccursAt(line + CRLF, CRLF, i)
    {
      assert (line + CRLF)[i + 0] == line[i] && CRLF[0] == '\r';
    }
    FindIn(buffer, unread, line, CRLF, more);
  }

  lemma Cut(buffer: string, unread: string, all: string, k: nat)
    requires buffer + unread == all && k <= |buffer|
    ensures |all| == |buffer| + |unread| && buffer[..k] == all[..k] && buffer[k..] + unread == all[k..]
  {
    assert buffer[..k] == (buffer + unread)[..k];
    assert buffer[k..] + unread == (buffer + unread)[k..];
  }

  lemma FindDelimiter(buffer: string, unread: string, left: string, boundary: string, more: string)
    requires buffer + unread == left + (Delimiter(boundary) + more) && Free(left, boundary) && NoReturn(boundary)
    ensures Find(buffer, Delimiter(boundary)) ==
            if |buffer| >= |left| + |Delimiter(boundary)| then |left| else |buffer|
  {
    var d := Delimiter(boundary);
    assert NoReturn(d[1..]);
    forall i | 0 <= i < |left|
      ensures !OccursAt(left + d, d, i)
    {
      NoEarlier(left, d, i);
    }
    FindIn(buffer, unread, left, d, more);
  }

  // ---------- where the parser stands in the serialized text ----------

  datatype Place =
    | InHeaders(lines: seq<string>, content: string, rest: seq<Item>)
    | InBody(left: string, rest: seq<Item>)
    | AtBoundary(rest: seq<Item>)
    | Done(text: string)

  // What is still to be read from there.
  function Stream(place: Place, boundary: string): string {
    match place
    case InHeaders(lines, content, rest) => HeaderText(lines) + Rest(content, rest, boundary)
    case InBody(left, rest) => Rest(left, rest, boundary)
    case AtBoundary(rest) => Tail(rest, boundary)
    case Done(text) => text
  }

  function Contents(items: seq<Item>): seq<string> {
    if items == [] then [] else [items[0].content] + Contents(items[1..])
  }

  // The parts there will be at the end.
  function Completed(parts: seq<string>, place: Place): seq<string> {
    match place
    case InHeaders(_, content, rest) => parts + [content] + Contents(rest)
    case InBody(left, rest) => Deliver(parts, left) + Contents(rest)
    case AtBoundary(rest) => parts + Contents(rest)
    case Done(_) => parts
  }

  // What the headers of the items say.
  function Infos(items: seq<Item>): seq<FileInfo> {
    if items == [] then [] else [TakeLines(NO_FILE, Lines(items[0]))] + Infos(items[1..])
  }

  // What there will be of the headers at the end.
  function CompletedFiles(p: Parser, place: Place): seq<FileInfo> {
    match place
    case InHeaders(lines, _, rest) =>
      p.files + [TakeLines(if p.state.NewEntry? then NO_FILE else p.file, lines)] + Infos(rest)
    case InBody(_, rest) => p.files + Infos(rest)
    case AtBoundary(rest) => p.files + Infos(rest)
    case Done(_) => p.files
  }

  ghost predicate PlainLine(accepts: HeaderParser, line: string) {
    0 < |line| < HEADER_MAX_LENGTH && NoReturn(line) && accepts(line)
  }

  ghost predicate PlainLines(accepts: HeaderParser, lines: seq<string>) {
    forall i :: 0 <= i < |lines| ==> PlainLine(accepts, lines[i])
  }

  ghost predicate PlainItem(accepts: HeaderParser, item: Item, boundary: string) {
    PlainLines(accepts, Lines(item)) && Free(item.content, boundary)
  }

  ghost predicate Plain(accepts: HeaderParser, items: seq<Item>, boundary: string) {
    forall i :: 0 <= i < |items| ==> PlainItem(accepts, items[i], boundary)
  }

  ghost predicate Stands(accepts: HeaderParser, p: Parser, place: Place) {
    && NoReturn(p.boundary)
    && match place
       case InHeaders(lines, content, rest) =>
         && (p.state.NewEntry? || p.state.Headers?)
         && PlainLines(accepts, lines) && Free(content, p.boundary) && Plain(accepts, rest, p.boundary)
       case InBody(left, rest) =>
         p.state.Body? && p.parts != [] && Free(left, p.boundary) && Plain(accepts, rest, p.boundary)
       case AtBoundary(rest) => p.state.Boundary? && Plain(accepts, rest, p.boundary)
       case Done(text) => p.valid && (text == "" || (p.state.Boundary? && (|text| == 1 || text == CRLF)))
  }

  ghost predicate Reads(accepts: HeaderParser, p: Parser, place: Place, unread: string) {
    p.buffer + unread == Stream(place, p.boundary) && Stands(accepts, p, place)
  }

  // The round keeps the place in the text; it returns early only when there is more to come.
  ghost predicate Kept(accepts: HeaderParser, p: Parser, place: Place, unread: string, r: Round, next: Place) {
    && (r.Return? ==> r.ok && (unread == "" ==> next.Done?))
    && Reads(accepts, r.parser, next, unread)
    && r.parser.boundary == p.boundary
    && Completed(r.parser.parts, next) == Completed(p.parts, place)
    && CompletedFiles(r.parser, next) == CompletedFiles(p, place)
  }

  lemma FreeSuffix(content: string, boundary: string, k: nat)
    requires Free(content, boundary) && k <= |content|
    ensures Free(content[k..], boundary)
  {
    forall i | 0 <= i <= |content[k..]|
      ensures !OccursAt(content[k..], Delimiter(boundary), i)
    {
      assert !OccursAt(content, Delimiter(boundary), k + i);
    }
  }

  lemma BodyText(buffer: string, unread: string, left: string, d: string, more: string)
    requires buffer + unread == left + (d + more)
    ensures |buffer| >= |left| + |d| ==> buffer[..|left|] == left && buffer[|left| + |d|..] + unread == more
    ensures |d| <= |buffer| < |left| + |d| ==>
              var len := |buffer| - |d|;
              len < |left| && buffer[..len] == left[..len] && buffer[len..] + unread == left[len..] + (d + more)
    ensures |unread| + |buffer| >= |left| + |d|
  {
    var all := left + (d + more);
    if |buffer| >= |left| + |d| {
      Cut(buffer, unread, all, |left|);
      Cut(buffer, unread, all, |left| + |d|);
      assert all[..|left|] == left && all[|left| + |d|..] == more;
    } else if |d| <= |buffer| {
      var len := |buffer| - |d|;
      Cut(buffer, unread, all, len);
      assert all[..len] == left[..len] && all[len..] == left[len..] + (d + more);
    }
  }

  lemma BodyWaits(accepts: HeaderParser, p: Parser, left: string, rest: seq<Item>, unread: string)
    requires Reads(accepts, p, InBody(left, rest), unread) && |p.buffer| < |Delimiter(p.boundary)|
    ensures Kept(accepts, p, InBody(left, rest), unread, BodyRound(p), InBody(left, rest))
  {
    BodyText(p.buffer, unread, left, Delimiter(p.boundary), Tail(rest, p.boundary));
    hide Find, Tail, Delimiter, Free, Plain, NoReturn, Completed;
  }

  lemma BodyEnds(accepts: HeaderParser, p: Parser, left: string, rest: seq<Item>, unread: string)
    requires Reads(accepts, p, InBody(left, rest), unread) && |p.buffer| >= |left| + |Delimiter(p.boundary)|
    ensures Kept(accepts, p, InBody(left, rest), unread, BodyRound(p), AtBoundary(rest))
  {
    FindDelimiter(p.buffer, unread, left, p.boundary, Tail(rest, p.boundary));
    BodyText(p.buffer, unread, left, Delimiter(p.boundary), Tail(rest, p.boundary));
    DelimiterNotEmpty(p.boundary);
    hide Find, Tail, Delimiter, Free, Plain, NoReturn, Contents, OccursAt, Deliver, HeaderText, PlainLines;
  }

  lemma BodyGoesOn(accepts: HeaderParser, p: Parser, left: string, rest: seq<Item>, unread: string)
    requires Reads(accepts, p, InBody(left, rest), unread)
    requires |Delimiter(p.boundary)| <= |p.buffer| < |left| + |Delimiter(p.boundary)|
    ensures var len := |p.buffer| - |Delimiter(p.boundary)|;
            len < |left| && Kept(accepts, p, InBody(left, rest), unread, BodyRound(p), InBody(left[len..], rest))
  {
    var len := |p.buffer| - |Delimiter(p.boundary)|;
    assert left[0..] == left;
    FindDelimiter(p.buffer, unread, left, p.boundary, Tail(rest, p.boundary));
    BodyText(p.buffer, unread, left, Delimiter(p.boundary), Tail(rest, p.boundary));
    FreeSuffix(left, p.boundary, len);
    DeliverTwice(p.parts, left[..len], left[len..]);
    assert left == left[..len] + left[len..];
    hide Find, Tail, Delimiter, Free, Plain, NoReturn, Contents, OccursAt, Deliver, HeaderText, PlainLines;
  }

  lemma DelimiterNotEmpty(boundary: string)
    ensures |Delimiter(boundary)| >= 4
  {
  }

  lemma BodyKept(accepts: HeaderParser, p: Parser, left: string, rest: seq<Item>, unread: string) returns (next: Place)
    requires p.buffer != "" && Reads(accepts, p, InBody(left, rest), unread)
    ensures Kept(accepts, p, InBody(left, rest), unread, BodyRound(p), next)
  {
    hide Reads, Kept, BodyRound;
    if |p.buffer| < |Delimiter(p.boundary)| {
      BodyWaits(accepts, p, left, rest, unread);
      next := InBody(left, rest);
    } else if |p.buffer| >= |left| + |Delimiter(p.boundary)| {
      BodyEnds(accepts, p, left, rest, unread);
      next := AtBoundary(rest);
    } else {
      BodyGoesOn(accepts, p, left, rest, unread);
      next := InBody(left[|p.buffer| - |Delimiter(p.boundary)|..], rest);
    }
  }

  lemma DeliverTwice(parts: seq<string>, a: string, b: string)
    requires parts != []
    ensures Deliver(Deliver(parts, a), b) == Deliver(parts, a + b)
    ensures Deliver(parts, a) != []
  {
    assert parts[|parts| - 1] + a + b == parts[|parts| - 1] + (a + b);
  }

  lemma Appended(parts: seq<string>, content: string, more: seq<string>)
    ensures Deliver(parts + [""], content) + more == parts + [content] + more
  {
    assert "" + content == content;
    assert (parts + [""])[..|parts|] == parts;
  }

  // The text up to the end of a line.
  lemma LineText(buffer: string, unread: string, line: string, more: string)
    requires buffer + unread == line + (CRLF + more)
    ensures |buffer| >= |line| + 2 ==> buffer[..|line|] == line && buffer[|line| + 2..] + unread == more
    ensures |buffer| + |unread| >= |line| + 2
  {
    var all := line + (CRLF + more);
    if |buffer| >= |line| + 2 {
      Cut(buffer, unread, all, |line|);
      Cut(buffer, unread, all, |line| + 2);
      assert all[..|line|] == line && all[|line| + 2..] == more;
    }
  }

  // What the search for the end of a line finds, and what is left after the line.
  lemma LineRead(accepts: HeaderParser, p: Parser, lines: seq<string>, after: string, unread: string, line: string)
    requires p.buffer + unread == HeaderText(lines) + after && PlainLines(accepts, lines)
    requires line == if lines == [] then "" else lines[0]
    ensures Find(p.buffer, CRLF) == if |p.buffer| >= |line| + 2 then |line| else |p.buffer|
    ensures Find(p.buffer, CRLF) <= HEADER_MAX_LENGTH && |p.buffer| + |unread| >= |line| + 2
    ensures |p.buffer| >= |line| + 2 ==>
              && p.buffer[..|line|] == line
              && p.buffer[|line| + 2..] + unread == (if lines == [] then "" else HeaderText(lines[1..])) + after
    ensures lines != [] ==> line != "" && accepts(line) && PlainLines(accepts, lines[1..])
  {
    HeaderStream(lines, after);
    assert lines != [] ==> PlainLine(accepts, line);
    assert "" + after == after;
    var more := (if lines == [] then "" else HeaderText(lines[1..])) + after;
    hide HeaderText, Find;
    FindLine(p.buffer, unread, line, more);
    LineText(p.buffer, unread, line, more);
  }

  lemma LinesWait(accepts: HeaderParser, p: Parser, place: Place, unread: string)
    requires Reads(accepts, p, place, unread) && place.InHeaders? && unread != ""
    ensures Kept(accepts, p, place, unread, Return(p, true), place)
  {
  }

  lemma LinesEnd(accepts: HeaderParser, p: Parser, content: string, rest: seq<Item>, unread: string)
    requires Reads(accepts, p, InHeaders([], content, rest), unread) && |p.buffer| >= 2 && p.state.Headers?
    requires p.buffer[2..] + unread == Rest(content, rest, p.boundary)
    ensures Kept(accepts, p, InHeaders([], content, rest), unread,
                 Again(PartOpened(p)), InBody(content, rest))
  {
    Appended(p.parts, content, Contents(rest));
    assert TakeLines(p.file, []) == p.file;
    hide TakeLines, Infos, Rest, Free, Plain, NoReturn, Contents, Deliver;
  }

  lemma {:induction false} LinesKept(accepts: HeaderParser, p: Parser, lines: seq<string>, content: string,
                                     rest: seq<Item>, unread: string) returns (next: Place)
    requires Reads(accepts, p, InHeaders(lines, content, rest), unread) && p.state.Headers?
    ensures Kept(accepts, p, InHeaders(lines, content, rest), unread, HeaderLines(accepts, p), next)
    ensures Find(p.buffer, CRLF) <= HEADER_MAX_LENGTH
    decreases |lines|
  {
    hide Find, Rest, Free, Plain, PlainLines, NoReturn, Contents, Deliver, HeaderText, HeaderLines;
    var line := if lines == [] then "" else lines[0];
    var after := Rest(content, rest, p.boundary);
    LineRead(accepts, p, lines, after, unread, line);
    HeaderLinesUnfold(accepts, p);
    if |p.buffer| < |line| + 2 {
      next := InHeaders(lines, content, rest);
      LinesWait(accepts, p, next, unread);
    } else if lines == [] {
      next := InBody(content, rest);
      assert "" + after == after;
      LinesEnd(accepts, p, content, rest, unread);
    } else {
      next := LinesKept(accepts, LineTaken(p, |line|), lines[1..], content, rest, unread);
      hide Completed, Stands;
    }
  }

  lemma HeaderStream(lines: seq<string>, after: string)
    ensures lines == [] ==> HeaderText(lines) + after == "" + (CRLF + after)
    ensures lines != [] ==> HeaderText(lines) + after == lines[0] + (CRLF + (HeaderText(lines[1..]) + after))
  {
    if lines != [] {
      var more := HeaderText(lines[1..]);
      hide HeaderText;
      assert (lines[0] + CRLF + more) + after == lines[0] + (CRLF + (more + after));
    }
  }

  lemma BoundaryWaits(accepts: HeaderParser, p: Parser, rest: seq<Item>, unread: string)
    requires Reads(accepts, p, AtBoundary(rest), unread) && |p.buffer| < 2
    ensures Kept(accepts, p, AtBoundary(rest), unread, BoundaryRound(p), AtBoundary(rest))
  {
    TailLength(rest, p.boundary);
    hide Tail, Plain, Contents, NoReturn;
  }

  lemma LastBoundary(accepts: HeaderParser, p: Parser, unread: string)
    requires Reads(accepts, p, AtBoundary([]), unread) && |p.buffer| >= 2
    ensures Kept(accepts, p, AtBoundary([]), unread, BoundaryRound(p), Done(unread))
  {
    LastText(p.buffer, unread);
    hide Plain, NoReturn, Contents;
    assert p.parts + [] == p.parts;
    assert Contents([]) == [] by {
      NoContents();
    }
    assert p.buffer[..2] == DASH && BoundaryRound(p) == Again(p.(buffer := "", valid := true));
    hide BoundaryRound;
    assert "" + unread == unread;
  }

  lemma NoContents()
    ensures Contents([]) == []
  {
  }

  lemma LastText(buffer: string, unread: string)
    requires buffer + unread == DASH + CRLF && |buffer| >= 2
    ensures buffer[..2] == DASH && buffer[..2] != CRLF
    ensures |unread| <= 1 || unread == CRLF
  {
    Cut(buffer, unread, DASH + CRLF, 2);
    assert (DASH + CRLF)[..2] == DASH && (DASH + CRLF)[2..] == CRLF;
    assert DASH[0] != CRLF[0];
    if |unread| > 1 {
      assert buffer[2..] == "";
    }
  }

  lemma NextEntry(accepts: HeaderParser, p: Parser, rest: seq<Item>, unread: string)
    requires rest != [] && Reads(accepts, p, AtBoundary(rest), unread) && |p.buffer| >= 2
    ensures Kept(accepts, p, AtBoundary(rest), unread, BoundaryRound(p),
                 InHeaders(Lines(rest[0]), rest[0].content, rest[1..]))
  {
    NextEntryText(p.buffer, unread, rest, p.boundary);
    NextEntryPlain(accepts, rest, p.boundary, p.parts);
    NextInfo(p.files, rest);
    hide Tail, Rest, HeaderText, Lines, Plain, Free, PlainLines, NoReturn, Contents, Infos, TakeLines;
  }

  lemma BoundaryKept(accepts: HeaderParser, p: Parser, rest: seq<Item>, unread: string) returns (next: Place)
    requires p.buffer != "" && Reads(accepts, p, AtBoundary(rest), unread)
    ensures Kept(accepts, p, AtBoundary(rest), unread, BoundaryRound(p), next)
  {
    hide Reads, Kept, BoundaryRound;
    if |p.buffer| < 2 {
      BoundaryWaits(accepts, p, rest, unread);
      next := AtBoundary(rest);
    } else if rest == [] {
      LastBoundary(accepts, p, unread);
      next := Done(unread);
    } else {
      NextEntry(accepts, p, rest, unread);
      next := InHeaders(Lines(rest[0]), rest[0].content, rest[1..]);
    }
  }

  lemma NextEntryText(buffer: string, unread: string, rest: seq<Item>, boundary: string)
    requires rest != [] && |buffer| >= 2 && buffer + unread == Tail(rest, boundary)
    ensures buffer[..2] == CRLF
    ensures buffer[2..] + unread == HeaderText(Lines(rest[0])) + Rest(rest[0].content, rest[1..], boundary)
  {
    var more := HeaderText(Lines(rest[0])) + Rest(rest[0].content, rest[1..], boundary);
    var all := Tail(rest, boundary);
    hide HeaderText, Rest, Lines;
    assert all == CRLF + more;
    hide Tail;
    Cut(buffer, unread, all, 2);
    assert all[..2] == CRLF && all[2..] == more;
  }

  lemma NextInfo(files: seq<FileInfo>, rest: seq<Item>)
    requires rest != []
    ensures files + Infos(rest) == files + [TakeLines(NO_FILE, Lines(rest[0]))] + Infos(rest[1..])
  {
    var info, more := TakeLines(NO_FILE, Lines(rest[0])), Infos(rest[1..]);
    assert Infos(rest) == [info] + more;
    hide TakeLines, Lines, Infos;
    assert files + ([info] + more) == files + [info] + more;
  }

  lemma NextEntryPlain(accepts: HeaderParser, rest: seq<Item>, boundary: string, parts: seq<string>)
    requires rest != [] && Plain(accepts, rest, boundary)
    ensures PlainLines(accepts, Lines(rest[0])) && Free(rest[0].content, boundary)
    ensures Plain(accepts, rest[1..], boundary)
    ensures parts + Contents(rest) == parts + [rest[0].content] + Contents(rest[1..])
  {
    assert PlainItem(accepts, rest[0], boundary);
    assert parts + ([rest[0].content] + Contents(rest[1..])) == parts + [rest[0].content] + Contents(rest[1..]);
  }

  lemma TailLength(rest: seq<Item>, boundary: string)
    ensures |Tail(rest, boundary)| >= 4
  {
    if rest != [] {
      HeaderStream(Lines(rest[0]), "");
    }
  }

  lemma DoneKept(accepts: HeaderParser, p: Parser, text: string, unread: string) returns (next: Place)
    requires p.buffer != "" && Reads(accepts, p, Done(text), unread)
    ensures Kept(accepts, p, Done(text), unread, BoundaryRound(p), next)
  {
    next := if |p.buffer| < 2 then Done(text) else Done("");
  }

  lemma RoundKept(accepts: HeaderParser, p: Parser, place: Place, unread: string) returns (next: Place)
    requires p.buffer != "" && Reads(accepts, p, place, unread)
    ensures Kept(accepts, p, place, unread, OneRound(accepts, p), next)
  {
    hide HeaderLines, BodyRound, BoundaryRound, Tail, Rest, HeaderText, Free, Plain, PlainLines, Contents, Find;
    match place
    case InHeaders(lines, content, rest) =>
      if p.state.NewEntry? {
        next := place;
      } else {
        next := LinesKept(accepts, p, lines, content, rest, unread);
      }
    case InBody(left, rest) => next := BodyKept(accepts, p, left, rest, unread);
    case AtBoundary(rest) => next := BoundaryKept(accepts, p, rest, unread);
    case Done(text) => next := DoneKept(accepts, p, text, unread);
  }

  lemma StreamNotEmpty(place: Place, boundary: string)
    ensures Stream(place, boundary) == "" ==> place.Done?
  {
    match place
    case InHeaders(lines, content, rest) => HeaderStream(lines, Rest(content, rest, boundary));
    case AtBoundary(rest) => TailLength(rest, boundary);
    case _ =>
  }

  // A round that goes on takes something from the buffer, or enters the headers.
  lemma RoundShrinks(accepts: HeaderParser, p: Parser)
    requires p.buffer != "" && OneRound(accepts, p).Again?
    ensures var q := OneRound(accepts, p).parser;
            || |q.buffer| < |p.buffer|
            || (|q.buffer| == |p.buffer| && p.state.NewEntry? && !q.state.NewEntry?)
  {
    HeaderLinesConsume(accepts, p);
    FindIs(p.buffer, DashBoundaryCrlf(p.boundary), 0);
    FindIs(p.buffer, Delimiter(p.boundary), 0);
    hide HeaderLines, Find, FindFrom, OccursAt;
  }

  lemma {:induction false} DriveKept(accepts: HeaderParser, p: Parser, place: Place, unread: string) returns (next: Place)
    requires Reads(accepts, p, place, unread)
    ensures Kept(accepts, p, place, unread, Drive(accepts, p), next)
    ensures Drive(accepts, p).Return?
    decreases |p.buffer|, if p.state.NewEntry? then 1 else 0
  {
    if p.buffer == "" {
      next := place;
      StreamNotEmpty(place, p.boundary);
    } else {
      next := RoundKept(accepts, p, place, unread);
      hide OneRound, Reads, Completed, Stream, Stands, NoReturn, Plain, Free;
      var r := OneRound(accepts, p);
      if r.Again? {
        RoundShrinks(accepts, p);
        next := DriveKept(accepts, r.parser, next, unread);
      }
    }
  }

  function Concat(pieces: seq<string>): string {
    if pieces == [] then "" else pieces[0] + Concat(pieces[1..])
  }

  lemma {:induction false} FeedAllKept(accepts: HeaderParser, p: Parser, place: Place, pieces: seq<string>)
    requires Reads(accepts, p, place, Concat(pieces)) && (pieces == [] ==> place.Done?)
    ensures var r := FeedAll(accepts, p, pieces);
            && r.Return? && r.ok && r.parser.valid && r.parser.parts == Completed(p.parts, place)
            && r.parser.files == CompletedFiles(p, place)
    decreases |pieces|
  {
    if pieces != [] {
      var q := p.(buffer := p.buffer + pieces[0]);
      var unread := Concat(pieces[1..]);
      assert p.buffer + (pieces[0] + unread) == p.buffer + pieces[0] + unread;
      var next := DriveKept(accepts, q, place, unread);
      hide Drive, Stream, Completed, Stands;
      var r := Drive(accepts, q);
      if pieces[1..] == [] {
        assert unread == "";
      }
      FeedAllKept(accepts, r.parser, next, pieces[1..]);
    }
  }

  function Fresh(boundary: string): Parser {
    Parser(boundary, Initial, "", false, [], NO_FILE, [])
  }

  // Letters, digits, hyphen and underscore.
  predicate ValidBoundary(boundary: string) {
    forall i :: 0 <= i < |boundary| ==>
      'a' <= boundary[i] <= 'z' || 'A' <= boundary[i] <= 'Z' || '0' <= boundary[i] <= '9'
      || boundary[i] == '-' || boundary[i] == '_'
  }

  lemma OpeningText(items: seq<Item>, boundary: string)
    requires items != []
    ensures Serialize(items, boundary) == DashBoundaryCrlf(boundary)
            + (HeaderText(Lines(items[0])) + Rest(items[0].content, items[1..], boundary))
  {
    SerializeIsTail(items, boundary);
    var h, r := HeaderText(Lines(items[0])), Rest(items[0].content, items[1..], boundary);
    hide Serialize, HeaderText, Lines, Rest;
    assert Tail(items, boundary) == CRLF + h + r;
    hide Tail;
    Regroup4(DASH + boundary, CRLF, h, r);
  }

  lemma Regroup4(a: string, b: string, c: string, d: string)
    ensures a + (b + c + d) == a + b + (c + d)
  {
  }

  lemma NoOpening(boundary: string)
    requires boundary + DASH != DASH + boundary
    ensures forall i :: 0 <= i < |DASH + boundary + DASH + CRLF| ==>
                          !OccursAt(DASH + boundary + DASH + CRLF, DashBoundaryCrlf(boundary), i)
  {
    var text, dash, n := DASH + boundary + DASH + CRLF, DASH + boundary + CRLF, |boundary|;
    assert |text| == n + 6 && |dash| == n + 4;
    assert text[0 + (2 + n)] == '-' && text[1 + (2 + n)] == '-' && dash[2 + n] == '\r';
    assert !OccursAt(text, dash, 0) && !OccursAt(text, dash, 1);
    var k :| 0 <= k < n + 2 && (boundary + DASH)[k] != (DASH + boundary)[k];
    assert text[2 + k] == (boundary + DASH)[k] && dash[k] == (DASH + boundary)[k];
    assert !OccursAt(text, dash, 2);
  }

  // A form without items is not accepted as one.
  lemma EmptyFormIsNotValid(accepts: HeaderParser, boundary: string)
    requires ValidBoundary(boundary) && boundary + DASH != DASH + boundary
    ensures Feed(accepts, Fresh(boundary), Serialize([], boundary)) == Return(Fresh(boundary), true)
  {
    hide FindFrom, HeaderLines, OneRound, Drive, Serialize, OccursAt;
    var text := DASH + boundary + DASH + CRLF;
    EmptyForm(boundary);
    NoOpening(boundary);
    FindIs(text, DashBoundaryCrlf(boundary), 0);
    NothingFound(accepts, boundary, text);
  }

  lemma EmptyForm(boundary: string)
    ensures Serialize([], boundary) == DASH + boundary + DASH + CRLF
  {
    assert "" + DASH == DASH;
  }

  lemma NothingFound(accepts: HeaderParser, boundary: string, text: string)
    requires Find(text, DashBoundaryCrlf(boundary)) == |text|
    ensures Feed(accepts, Fresh(boundary), text) == Return(Fresh(boundary), true)
  {
    hide Find, HeaderLines;
    assert "" + text == text && text[|text|..] == "";
  }
}
