/**
 Multipart form data: the serializer of the client and the parser that takes the text in pieces.

 Whether a header line is well formed is a parameter, `accepts`; what the parser takes from it is not.
 The contents of the parts, and what their headers say of them, are collected as the callbacks deliver them.
 */
module Multipart {
  import opened MultipartHeaders

  const CRLF: string := "\r\n"
  const DASH: string := "--"
  const HEADER_MAX_LENGTH: nat := 8192

  type HeaderParser = string -> bool

  datatype Item = Item(name: string, content: string, filename: string, contentType: string)

  // ---------- the serializer ----------

  function Disposition(item: Item): (r: string)
    ensures |r| > 0
  {
    "Content-Disposition: form-data; name=\"" + item.name + "\""
    + (if item.filename != "" then "; filename=\"" + item.filename + "\"" else "")
  }

  function TypeLine(item: Item): (r: string)
    ensures |r| > 0
  {
    "Content-Type: " + item.contentType
  }

  function ItemBegin(item: Item, boundary: string): string {
    DASH + boundary + CRLF + Disposition(item) + CRLF
    + (if item.contentType != "" then TypeLine(item) + CRLF else "")
    + CRLF
  }

  function ItemsText(items: seq<Item>, boundary: string): string {
    if items == [] then "" else ItemBegin(items[0], boundary) + items[0].content + CRLF + ItemsText(items[1..], boundary)
  }

  function Serialize(items: seq<Item>, boundary: string): string {
    ItemsText(items, boundary) + DASH + boundary + DASH + CRLF
  }

  // ---------- the parser ----------

  datatype State = Initial | NewEntry | Headers | Body | Boundary

  datatype Parser = Parser(
    boundary: string,
    state: State,
    buffer: string,
    valid: bool,
    parts: seq<string>,
    // of the entry whose header is being read, and of all entries
    file: FileInfo,
    files: seq<FileInfo>)

  // After a round of the loop: go on, or return whether all is well so far.
  datatype Round = Again(parser: Parser) | Return(parser: Parser, ok: bool)

  function DashBoundaryCrlf(boundary: string): string {
    DASH + boundary + CRLF
  }

  function Delimiter(boundary: string): string {
    CRLF + DASH + boundary
  }

  predicate OccursAt(s: string, t: string, i: nat) {
    i + |t| <= |s| && forall k :: 0 <= k < |t| ==> s[i + k] == t[k]
  }

  // The first occurrence, or the length of the text.
  function FindFrom(s: string, t: string, i: nat): nat
    requires i <= |s|
    decreases |s| - i
  {
    if i == |s| || OccursAt(s, t, i) then i else FindFrom(s, t, i + 1)
  }

  function Find(s: string, t: string): nat {
    FindFrom(s, t, 0)
  }

  lemma {:induction false} FindIs(s: string, t: string, i: nat)
    requires i <= |s|
    ensures i <= FindFrom(s, t, i) <= |s|
    ensures FindFrom(s, t, i) < |s| ==> OccursAt(s, t, FindFrom(s, t, i))
    ensures forall k :: i <= k < FindFrom(s, t, i) ==> !OccursAt(s, t, k)
    decreases |s| - i
  {
    if i < |s| && !OccursAt(s, t, i) {
      FindIs(s, t, i + 1);
    }
  }

  function Erase(p: Parser, n: nat): Parser
    requires n <= |p.buffer|
  {
    p.(buffer := p.buffer[n..])
  }

  // The line up to `pos` is read.
  function LineTaken(p: Parser, pos: nat): Parser
    requires pos + 2 <= |p.buffer|
  {
    Erase(p, pos + 2).(file := TakeLine(p.file, p.buffer[..pos]))
  }

  // The empty line is read: the callback for a header, and a part without content so far.
  function PartOpened(p: Parser): Parser
    requires 2 <= |p.buffer|
  {
    Erase(p, 2).(state := Body, parts := p.parts + [""], files := p.files + [p.file])
  }

  // The lines that are complete, up to the empty one.
  function HeaderLines(accepts: HeaderParser, p: Parser): Round
    decreases |p.buffer|
  {
    FindIs(p.buffer, CRLF, 0);
    var pos := Find(p.buffer, CRLF);
    if pos >= |p.buffer| then Return(p, true)
    else if pos == 0 then Again(PartOpened(p))
    else if !accepts(p.buffer[..pos]) then Return(p.(valid := false), false)
    else HeaderLines(accepts, LineTaken(p, pos))
  }

  function Deliver(parts: seq<string>, content: string): seq<string> {
    if parts == [] then [content] else parts[..|parts| - 1] + [parts[|parts| - 1] + content]
  }

  // Looks for the opening delimiter; what does not hold all of it is lost.
  function InitialRound(p: Parser): Round {
    var dash := DashBoundaryCrlf(p.boundary);
    FindIs(p.buffer, dash, 0);
    var q := Erase(p, Find(p.buffer, dash));
    if |dash| > |q.buffer| then Return(q, true) else Again(Erase(q, |dash|).(state := NewEntry))
  }

  function BodyRound(p: Parser): Round {
    var delimiter := Delimiter(p.boundary);
    if |delimiter| > |p.buffer| then Return(p, true)
    else
      FindIs(p.buffer, delimiter, 0);
      var pos := Find(p.buffer, delimiter);
      if pos < |p.buffer| then
        Again(Erase(p, pos + |delimiter|).(state := Boundary, parts := Deliver(p.parts, p.buffer[..pos])))
      else
        var len := |p.buffer| - |delimiter|;
        if len > 0 then Return(Erase(p, len).(parts := Deliver(p.parts, p.buffer[..len])), true) else Return(p, true)
  }

  // After the last delimiter the rest of the buffer is dropped.
  function BoundaryRound(p: Parser): Round {
    if 2 > |p.buffer| then Return(p, true)
    else if p.buffer[..2] == CRLF then Again(Erase(p, 2).(state := NewEntry))
    else if p.buffer[..2] == DASH then Again(p.(buffer := "", valid := true))
    else Return(p, true)
  }

  function OneRound(accepts: HeaderParser, p: Parser): Round {
    match p.state
    case Initial => InitialRound(p)
    case NewEntry => Again(p.(state := Headers, file := NO_FILE))
    case Headers =>
      if Find(p.buffer, CRLF) > HEADER_MAX_LENGTH then Return(p, false) else HeaderLines(accepts, p)
    case Body => BodyRound(p)
    case Boundary => BoundaryRound(p)
  }

  // The loop over the lines, one turn.
  lemma HeaderLinesUnfold(accepts: HeaderParser, p: Parser)
    ensures var pos := Find(p.buffer, CRLF);
            && pos <= |p.buffer| && (pos < |p.buffer| ==> pos + 2 <= |p.buffer|)
            && HeaderLines(accepts, p) ==
               if pos >= |p.buffer| then Return(p, true)
               else if pos == 0 then Again(PartOpened(p))
               else if !accepts(p.buffer[..pos]) then Return(p.(valid := false), false)
               else HeaderLines(accepts, LineTaken(p, pos))
  {
    FindIs(p.buffer, CRLF, 0);
  }

  lemma {:induction false} HeaderLinesConsume(accepts: HeaderParser, p: Parser)
    ensures var r := HeaderLines(accepts, p);
            |r.parser.buffer| <= |p.buffer| && (r.Again? ==> |r.parser.buffer| < |p.buffer|)
            && r.parser.boundary == p.boundary
    decreases |p.buffer|
  {
    FindIs(p.buffer, CRLF, 0);
    var pos := Find(p.buffer, CRLF);
    if 0 < pos < |p.buffer| && accepts(p.buffer[..pos]) {
      HeaderLinesConsume(accepts, LineTaken(p, pos));
    }
  }

  // parse, after the new text is in the buffer
  function Drive(accepts: HeaderParser, p: Parser): Round
    decreases |p.buffer|, if p.state.NewEntry? then 1 else 0
  {
    if p.buffer == "" then Return(p, true)
    else
      HeaderLinesConsume(accepts, p);
      FindIs(p.buffer, DashBoundaryCrlf(p.boundary), 0);
      FindIs(p.buffer, Delimiter(p.boundary), 0);
      match OneRound(accepts, p)
      case Again(q) => Drive(accepts, q)
      case Return(q, ok) => Return(q, ok)
  }

  function Feed(accepts: HeaderParser, p: Parser, piece: string): Round {
    Drive(accepts, p.(buffer := p.buffer + piece))
  }

  function FeedAll(accepts: HeaderParser, p: Parser, pieces: seq<string>): Round
    decreases |pieces|
  {
    if pieces == [] then Return(p, true)
    else
      var r := Feed(accepts, p, pieces[0]);
      if r.Return? && r.ok then FeedAll(accepts, r.parser, pieces[1..]) else r
  }
}
