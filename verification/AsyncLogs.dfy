/**
 The asynchronous log: lines are appended to buffers under a lock, and a back end takes the buffers away,
 writes them to the file and gives two of them back.

 `pieces` is the history of the back end: what it wrote, and what it dropped when it fell behind.
 A step is what one thread does between taking and releasing the lock, or one action of the back end.
 */
module AsyncLogs {
  import opened Basics

  const LARGE: nat := 4_000_000
  const BEHIND: nat := 25

  datatype Piece = Written(text: string) | Dropped(text: string) | Notice(text: string)

  // While it writes, the back end has written `at` buffers and has lost the text it had to drop.
  datatype Stage = Waiting | Collected | Writing(at: nat, lost: Option<string>)

  datatype Log = Log(
    current: string,
    next: Option<string>,
    buffers: seq<string>,
    // locals of the back end
    newBuffer1: Option<string>,
    newBuffer2: Option<string>,
    buffersToWrite: seq<string>,
    stage: Stage,
    output: string,
    pieces: seq<Piece>)

  function Flat(texts: seq<string>): string {
    if texts == [] then "" else texts[0] + Flat(texts[1..])
  }

  // A buffer takes a text only when that leaves room.
  function Put(buffer: string, text: string): string {
    if LARGE - |buffer| > |text| then buffer + text else buffer
  }

  // ---------- the steps ----------

  function Append(g: Log, line: string): Log {
    if LARGE - |g.current| > |line| then g.(current := g.current + line)
    else g.(buffers := g.buffers + [g.current], current := Put(if g.next.Some? then g.next.value else "", line), next := None)
  }

  function Collect(g: Log): Log
    requires g.newBuffer1.Some?
  {
    var refill := g.next.None?;
    g.(buffersToWrite := g.buffers + [g.current],
    buffers := g.buffersToWrite,
    current := g.newBuffer1.value,
    newBuffer1 := None,
    next := if refill then g.newBuffer2 else g.next,
    newBuffer2 := if refill then None else g.newBuffer2,
    stage := Collected)
  }

  // More than 25 buffers: the back end writes a notice and keeps two.
  function Trim(g: Log, notice: string): Log {
    if |g.buffersToWrite| > BEHIND then
      g.(output := g.output + notice,
      pieces := g.pieces + [Notice(notice)],
      buffersToWrite := g.buffersToWrite[..2],
      stage := Writing(0, Some(Flat(g.buffersToWrite[2..]))))
    else g.(stage := Writing(0, None))
  }

  function Write(g: Log): Log
    requires g.stage.Writing? && g.stage.at < |g.buffersToWrite|
  {
    var text := g.buffersToWrite[g.stage.at];
    g.(output := g.output + text, pieces := g.pieces + [Written(text)], stage := g.stage.(at := g.stage.at + 1))
  }

  // Two buffers are kept and reset; each taking needs one to be there.
  function Reclaim(g: Log): Log
    requires g.stage.Writing?
    requires g.newBuffer1.None? ==> |g.buffersToWrite| >= 1
    requires g.newBuffer2.None? ==> |g.buffersToWrite| >= if g.newBuffer1.None? then 2 else 1
  {
    g.(newBuffer1 := if g.newBuffer1.None? then Some("") else g.newBuffer1,
    newBuffer2 := if g.newBuffer2.None? then Some("") else g.newBuffer2,
    buffersToWrite := [],
    pieces := if g.stage.lost.Some? then g.pieces + [Dropped(g.stage.lost.value)] else g.pieces,
    stage := Waiting)
  }

  // ---------- what every step keeps ----------

  predicate Fits(buffer: string) {
    |buffer| < LARGE
  }

  ghost predicate Inv(g: Log) {
    && (g.next.None? ==> g.buffers != [])
    && (g.next.Some? ==> g.next.value == "")
    && (g.newBuffer1.Some? ==> g.newBuffer1.value == "")
    && (g.newBuffer2.Some? ==> g.newBuffer2.value == "")
    && (if g.stage.Waiting? then g.newBuffer1.Some? && g.newBuffer2.Some? && g.buffersToWrite == []
        else g.newBuffer1.None? && |g.buffersToWrite| >= if g.newBuffer2.None? then 2 else 1)
    && (g.stage.Writing? ==>
          g.stage.at <= |g.buffersToWrite| <= BEHIND && (g.stage.lost.Some? ==> |g.buffersToWrite| == 2))
    && Fits(g.current)
    && (forall b :: b in g.buffers ==> Fits(b))
    && (forall b :: b in g.buffersToWrite ==> Fits(b))
  }

  datatype Step = AppendLine(line: string) | CollectThem | TrimThem(notice: string) | WriteOne | ReclaimTwo

  predicate Enabled(g: Log, s: Step) {
    match s
    case AppendLine(_) => true
    case CollectThem => g.stage.Waiting?
    case TrimThem(_) => g.stage.Collected?
    case WriteOne => g.stage.Writing? && g.stage.at < |g.buffersToWrite|
    case ReclaimTwo => g.stage.Writing? && g.stage.at == |g.buffersToWrite|
  }

  function Next(g: Log, s: Step): Log
    requires Inv(g) && Enabled(g, s)
  {
    match s
    case AppendLine(line) => Append(g, line)
    case CollectThem => Collect(g)
    case TrimThem(notice) => Trim(g, notice)
    case WriteOne => Write(g)
    case ReclaimTwo => Reclaim(g)
  }

  // The back end always finds the buffers it takes back, also after it dropped some.
  lemma NextKeeps(g: Log, s: Step)
    requires Inv(g) && Enabled(g, s)
    ensures Inv(Next(g, s))
  {
  }

  // ---------- conservation ----------

  // What the pieces say about the lines, and what they put into the file.
  function Lines(pieces: seq<Piece>): string {
    if pieces == [] then ""
    else Lines(pieces[..|pieces| - 1]) + (var p := pieces[|pieces| - 1]; if p.Notice? then "" else p.text)
  }

  function Filed(pieces: seq<Piece>): string {
    if pieces == [] then ""
    else Filed(pieces[..|pieces| - 1]) + (var p := pieces[|pieces| - 1]; if p.Dropped? then "" else p.text)
  }

  // A line of 4,000,000 bytes or more fits in no buffer.
  function Kept(line: string): string {
    if Fits(line) then line else ""
  }

  function Lost(stage: Stage): string {
    if stage.Writing? && stage.lost.Some? then stage.lost.value else ""
  }

  function Unwritten(g: Log): seq<string> {
    if g.stage.Writing? then (if g.stage.at <= |g.buffersToWrite| then g.buffersToWrite[g.stage.at..] else [])
    else g.buffersToWrite
  }

  // Everything appended, wherever it is now.
  function Stream(g: Log): string {
    Lines(g.pieces) + Flat(Unwritten(g)) + Lost(g.stage) + Flat(g.buffers) + g.current
  }

  lemma {:induction false} FlatJoin(a: seq<string>, b: seq<string>)
    ensures Flat(a + b) == Flat(a) + Flat(b)
  {
    if a == [] {
      assert a + b == b;
    } else {
      assert (a + b)[1..] == a[1..] + b;
      FlatJoin(a[1..], b);
    }
  }

  lemma FlatOne(a: string)
    ensures Flat([a]) == a
  {
    assert [a][1..] == [];
  }

  lemma PieceAdded(pieces: seq<Piece>, p: Piece)
    ensures Lines(pieces + [p]) == Lines(pieces) + (if p.Notice? then "" else p.text)
    ensures Filed(pieces + [p]) == Filed(pieces) + (if p.Dropped? then "" else p.text)
  {
    assert (pieces + [p])[..|pieces|] == pieces;
  }

  lemma AppendStream(g: Log, line: string)
    requires Inv(g)
    ensures Stream(Append(g, line)) == Stream(g) + Kept(line)
  {
    hide Flat, Lines, Unwritten, Lost;
    FlatJoin(g.buffers, [g.current]);
    FlatOne(g.current);
    SameUnwritten(g, line);
    var front := Lines(g.pieces) + Flat(Unwritten(g)) + Lost(g.stage);
    if LARGE - |g.current| > |line| {
      Associates(front + Flat(g.buffers), g.current, line);
    } else {
      Associates(front, Flat(g.buffers), g.current);
    }
  }

  lemma SameUnwritten(g: Log, line: string)
    ensures Unwritten(Append(g, line)) == Unwritten(g)
  {
  }

  lemma CollectStream(g: Log)
    requires Inv(g) && g.stage.Waiting?
    ensures Stream(Collect(g)) == Stream(g)
  {
    FlatJoin(g.buffers, [g.current]);
    FlatOne(g.current);
    hide Lines;
    assert Unwritten(g) == [];
    assert Lines(g.pieces) + (Flat(g.buffers) + g.current) == Lines(g.pieces) + Flat(g.buffers) + g.current;
  }

  lemma TrimStream(g: Log, notice: string)
    requires Inv(g) && g.stage.Collected?
    ensures Stream(Trim(g, notice)) == Stream(g)
  {
    PieceAdded(g.pieces, Notice(notice));
    var v := Trim(g, notice);
    assert Unwritten(v) == v.buffersToWrite;
    if |g.buffersToWrite| > BEHIND {
      assert g.buffersToWrite == g.buffersToWrite[..2] + g.buffersToWrite[2..];
      FlatJoin(g.buffersToWrite[..2], g.buffersToWrite[2..]);
      hide Lines, Flat, Unwritten;
      assert Lines(g.pieces) + Flat(v.buffersToWrite) + Lost(v.stage) ==
             Lines(g.pieces) + (Flat(v.buffersToWrite) + Lost(v.stage));
    }
  }

  lemma WriteStream(g: Log)
    requires Inv(g) && g.stage.Writing? && g.stage.at < |g.buffersToWrite|
    ensures Stream(Write(g)) == Stream(g)
  {
    var text := g.buffersToWrite[g.stage.at];
    PieceAdded(g.pieces, Written(text));
    assert Unwritten(g) == [text] + Unwritten(Write(g));
    FlatJoin([text], Unwritten(Write(g)));
    FlatOne(text);
    hide Lines, Flat, Unwritten;
    assert Lines(g.pieces) + (text + Flat(Unwritten(Write(g)))) == Lines(g.pieces) + text + Flat(Unwritten(Write(g)));
  }

  lemma ReclaimStream(g: Log)
    requires Inv(g) && g.stage.Writing? && g.stage.at == |g.buffersToWrite|
    ensures Stream(Reclaim(g)) == Stream(g)
  {
    PieceAdded(g.pieces, Dropped(Lost(g.stage)));
    assert Unwritten(g) == [] && Unwritten(Reclaim(g)) == [];
    hide Lines, Unwritten;
  }

  lemma StreamStep(g: Log, s: Step)
    requires Inv(g) && Enabled(g, s)
    ensures Stream(Next(g, s)) == Stream(g) + if s.AppendLine? then Kept(s.line) else ""
  {
    hide Stream, Inv, Append, Collect, Trim, Write, Reclaim;
    match s
    case AppendLine(line) => AppendStream(g, line);
    case CollectThem => CollectStream(g);
    case TrimThem(notice) => TrimStream(g, notice);
    case WriteOne => WriteStream(g);
    case ReclaimTwo => ReclaimStream(g);
  }

  // The file holds what the pieces say.
  lemma OutputStep(g: Log, s: Step)
    requires Inv(g) && Enabled(g, s) && g.output == Filed(g.pieces)
    ensures Next(g, s).output == Filed(Next(g, s).pieces)
  {
    match s
    case TrimThem(notice) => PieceAdded(g.pieces, Notice(notice));
    case WriteOne => PieceAdded(g.pieces, Written(g.buffersToWrite[g.stage.at]));
    case ReclaimTwo => PieceAdded(g.pieces, Dropped(Lost(g.stage)));
    case _ =>
  }

  ghost predicate Runs(g: Log, steps: seq<Step>)
    requires Inv(g)
    decreases |steps|
  {
    steps == [] || (Enabled(g, steps[0]) && (NextKeeps(g, steps[0]); Runs(Next(g, steps[0]), steps[1..])))
  }

  function After(g: Log, steps: seq<Step>): (v: Log)
    requires Inv(g) && Runs(g, steps)
    ensures Inv(v)
    decreases |steps|
  {
    if steps == [] then g
    else
      NextKeeps(g, steps[0]);
      After(Next(g, steps[0]), steps[1..])
  }

  // The lines of a run, in the order in which they took the lock.
  function Appended(steps: seq<Step>): string {
    if steps == [] then ""
    else (if steps[0].AppendLine? then Kept(steps[0].line) else "") + Appended(steps[1..])
  }

  // Both buffers are there when the back end starts.
  function Fresh(): (g: Log)
    ensures Inv(g)
  {
    Log("", Some(""), [], Some(""), Some(""), [], Waiting, "", [])
  }

  lemma Associates(a: string, b: string, c: string)
    ensures (a + b) + c == a + (b + c)
  {
  }

  lemma {:induction false} StreamAfter(g: Log, steps: seq<Step>)
    requires Inv(g) && Runs(g, steps) && g.output == Filed(g.pieces)
    ensures Stream(After(g, steps)) == Stream(g) + Appended(steps)
    ensures After(g, steps).output == Filed(After(g, steps).pieces)
    decreases |steps|
  {
    if steps != [] {
      NextKeeps(g, steps[0]);
      StreamStep(g, steps[0]);
      OutputStep(g, steps[0]);
      var v := Next(g, steps[0]);
      var line := if steps[0].AppendLine? then Kept(steps[0].line) else "";
      assert Appended(steps) == line + Appended(steps[1..]);
      hide Inv, Next, Stream, Filed, Enabled, Kept, Appended;
      StreamAfter(v, steps[1..]);
      Associates(Stream(g), line, Appended(steps[1..]));
    }
  }

  /**
   Conservation, in every run: the pieces that were written or dropped, then what is being written, then
   what waits in the buffers, are all lines appended so far, in lock order; and the file holds exactly
   the written pieces and the notices.
   */
  lemma Conservation(steps: seq<Step>)
    requires Runs(Fresh(), steps)
    ensures Stream(After(Fresh(), steps)) == Appended(steps)
    ensures After(Fresh(), steps).output == Filed(After(Fresh(), steps).pieces)
  {
    StreamAfter(Fresh(), steps);
    assert Stream(Fresh()) == "";
  }

  predicate OnlyWritten(pieces: seq<Piece>) {
    forall i :: 0 <= i < |pieces| ==> pieces[i].Written?
  }

  // No cycle of the run collects more than 25 buffers.
  ghost predicate KeepsUp(g: Log, steps: seq<Step>)
    requires Inv(g) && Runs(g, steps)
    decreases |steps|
  {
    steps == [] || (
      && (steps[0].TrimThem? ==> |g.buffersToWrite| <= BEHIND)
      && (NextKeeps(g, steps[0]); KeepsUp(Next(g, steps[0]), steps[1..])))
  }

  lemma {:induction false} NothingDropped(g: Log, steps: seq<Step>)
    requires Inv(g) && Runs(g, steps) && KeepsUp(g, steps) && OnlyWritten(g.pieces) && Lost(g.stage) == ""
    requires g.stage.Writing? ==> g.stage.lost.None?
    ensures OnlyWritten(After(g, steps).pieces) && Lost(After(g, steps).stage) == ""
    decreases |steps|
  {
    if steps != [] {
      NextKeeps(g, steps[0]);
      var v := Next(g, steps[0]);
      assert OnlyWritten(v.pieces) && (v.stage.Writing? ==> v.stage.lost.None?);
      hide Inv, Next, Enabled;
      NothingDropped(v, steps[1..]);
    }
  }

  lemma {:induction false} WrittenAreFiled(pieces: seq<Piece>)
    requires OnlyWritten(pieces)
    ensures Lines(pieces) == Filed(pieces)
  {
    if pieces != [] {
      WrittenAreFiled(pieces[..|pieces| - 1]);
    }
  }

  /**
   While the back end keeps up, the file, what is being written, and the buffers make up all lines: nothing
   is lost, doubled or reordered.
   */
  lemma AllLines(steps: seq<Step>)
    requires Runs(Fresh(), steps) && KeepsUp(Fresh(), steps)
    ensures var g := After(Fresh(), steps);
            g.output + Flat(Unwritten(g)) + Flat(g.buffers) + g.current == Appended(steps)
  {
    Conservation(steps);
    NothingDropped(Fresh(), steps);
    var g := After(Fresh(), steps);
    WrittenAreFiled(g.pieces);
    assert Lines(g.pieces) + Flat(Unwritten(g)) + "" == Lines(g.pieces) + Flat(Unwritten(g));
  }

  // ---------- how much the back end can take ----------

  /**
   A line moves the current buffer to the others if and only if it does not fit; the buffer it then goes to
   holds nothing but it.
   */
  lemma RotatesExactly(g: Log, line: string)
    requires Inv(g)
    ensures var v := Append(g, line);
            if |g.current| + |line| < LARGE then v.buffers == g.buffers && v.current == g.current + line && v.next == g.next
            else v.buffers == g.buffers + [g.current] && v.current == Kept(line) && v.next.None?
  {
    assert "" + line == line;
  }

  // So many bytes fill a number of buffers: of two that follow each other, at least LARGE bytes are in the first
  // and the line that began the second.
  predicate Filled(buffers: nat, current: nat, volume: nat) {
    if buffers % 2 == 0 then volume >= buffers / 2 * LARGE + current else volume >= (buffers + 1) / 2 * LARGE
  }

  lemma FilledMore(g: Log, line: string, volume: nat)
    requires Inv(g) && Filled(|g.buffers|, |g.current|, volume)
    ensures var v := Append(g, line); Filled(|v.buffers|, |v.current|, volume + |line|)
  {
    RotatesExactly(g, line);
  }

  // Less than 13 buffers' worth of lines fills at most 24 buffers besides the current one.
  lemma FilledFew(buffers: nat, current: nat, volume: nat)
    requires Filled(buffers, current, volume) && volume < 13 * LARGE
    ensures buffers + 1 <= BEHIND
  {
  }

  // Fewer than 13 * LARGE bytes are appended between two collections; `volume` are those since the last one.
  ghost predicate Moderate(steps: seq<Step>, volume: nat)
    decreases |steps|
  {
    steps == [] ||
    match steps[0]
    case AppendLine(line) => Moderate(steps[1..], volume + |line|)
    case CollectThem => volume < 13 * LARGE && Moderate(steps[1..], 0)
    case _ => Moderate(steps[1..], volume)
  }

  lemma ModerateStep(g: Log, s: Step, volume: nat)
    requires Inv(g) && Enabled(g, s) && Filled(|g.buffers|, |g.current|, volume)
    requires s.CollectThem? ==> volume < 13 * LARGE
    requires g.stage.Collected? ==> |g.buffersToWrite| <= BEHIND
    ensures var v := Next(g, s);
            && Filled(|v.buffers|, |v.current|,
                      if s.AppendLine? then volume + |s.line| else if s.CollectThem? then 0 else volume)
            && (v.stage.Collected? ==> |v.buffersToWrite| <= BEHIND)
  {
    match s
    case AppendLine(line) => FilledMore(g, line, volume);
    case CollectThem => FilledFew(|g.buffers|, |g.current|, volume);
    case _ =>
  }

  lemma {:induction false} ModerateKeepsUp(g: Log, steps: seq<Step>, volume: nat)
    requires Inv(g) && Runs(g, steps) && Moderate(steps, volume) && Filled(|g.buffers|, |g.current|, volume)
    requires g.stage.Collected? ==> |g.buffersToWrite| <= BEHIND
    ensures KeepsUp(g, steps)
    decreases |steps|
  {
    if steps != [] {
      var s := steps[0];
      NextKeeps(g, s);
      ModerateStep(g, s, volume);
      hide Inv, Next, Filled;
      ModerateKeepsUp(Next(g, s), steps[1..],
                      if s.AppendLine? then volume + |s.line| else if s.CollectThem? then 0 else volume);
    }
  }

  /**
   While fewer than 13 * LARGE bytes are appended between two collections, however they are cut into lines, the
   back end keeps up: the file, what is being written, and the buffers make up all lines.
   */
  lemma ModerateRateLosesNothing(steps: seq<Step>)
    requires Runs(Fresh(), steps) && Moderate(steps, 0)
    ensures KeepsUp(Fresh(), steps)
    ensures var g := After(Fresh(), steps);
            g.output + Flat(Unwritten(g)) + Flat(g.buffers) + g.current == Appended(steps)
  {
    ModerateKeepsUp(Fresh(), steps, 0);
    AllLines(steps);
  }

  function Times(line: string, n: nat): seq<Step> {
    if n == 0 then [] else Times(line, n - 1) + [AppendLine(line)]
  }

  lemma {:induction false} HalvesFill(line: string, n: nat)
    requires |line| == LARGE / 2 && n >= 1
    ensures Runs(Fresh(), Times(line, n))
    ensures var g := After(Fresh(), Times(line, n)); g.stage.Waiting? && |g.buffers| == n - 1 && |g.current| == LARGE / 2
    decreases n
  {
    if n == 1 {
      assert Times(line, 0) == [];
    } else {
      HalvesFill(line, n - 1);
    }
    AfterOneMore(Fresh(), Times(line, n - 1), AppendLine(line));
    RotatesExactly(After(Fresh(), Times(line, n - 1)), line);
  }

  // The bound is sharp: 26 lines of half a buffer, 13 * LARGE bytes, and the back end is behind.
  lemma ThirteenBuffersAreTooMany(line: string)
    requires |line| == LARGE / 2
    ensures Runs(Fresh(), Times(line, 26) + [CollectThem])
    ensures |After(Fresh(), Times(line, 26) + [CollectThem]).buffersToWrite| == BEHIND + 1
  {
    HalvesFill(line, 26);
    AfterOneMore(Fresh(), Times(line, 26), CollectThem);
  }

  lemma PiecesGrow(g: Log, s: Step)
    requires Inv(g) && Enabled(g, s)
    ensures g.pieces <= Next(g, s).pieces
  {
  }

  lemma {:induction false} PiecesStay(g: Log, steps: seq<Step>)
    requires Inv(g) && Runs(g, steps)
    ensures g.pieces <= After(g, steps).pieces
    decreases |steps|
  {
    if steps != [] {
      NextKeeps(g, steps[0]);
      PiecesGrow(g, steps[0]);
      hide Inv, Next, Enabled;
      PiecesStay(Next(g, steps[0]), steps[1..]);
    }
  }

  // The back end keeps up exactly when the file holds no notice.
  lemma {:induction false} BehindIsNoticed(g: Log, steps: seq<Step>)
    requires Inv(g) && Runs(g, steps) && OnlyWritten(g.pieces) && (g.stage.Writing? ==> g.stage.lost.None?)
    ensures KeepsUp(g, steps) <==> forall i :: 0 <= i < |After(g, steps).pieces| ==> !After(g, steps).pieces[i].Notice?
    decreases |steps|
  {
    if steps != [] {
      NextKeeps(g, steps[0]);
      var v := Next(g, steps[0]);
      if steps[0].TrimThem? && |g.buffersToWrite| > BEHIND {
        assert v.pieces[|g.pieces|].Notice?;
        PiecesStay(v, steps[1..]);
        assert After(g, steps).pieces[|g.pieces|] == v.pieces[|g.pieces|];
      } else {
        assert OnlyWritten(v.pieces) && (v.stage.Writing? ==> v.stage.lost.None?);
        assert After(g, steps) == After(v, steps[1..]);
        assert KeepsUp(g, steps) <==> KeepsUp(v, steps[1..]);
        hide Inv, Next, Enabled, OnlyWritten, After, KeepsUp;
        BehindIsNoticed(v, steps[1..]);
      }
    } else {
      assert forall i :: 0 <= i < |g.pieces| ==> g.pieces[i].Written?;
    }
  }

  lemma {:induction false} AfterOneMore(g: Log, steps: seq<Step>, s: Step)
    requires Inv(g) && Runs(g, steps) && Enabled(After(g, steps), s)
    ensures Runs(g, steps + [s]) && After(g, steps + [s]) == Next(After(g, steps), s)
    decreases |steps|
  {
    if steps == [] {
      assert [s][1..] == [];
      assert steps + [s] == [s];
      NextKeeps(g, s);
    } else {
      assert (steps + [s])[1..] == steps[1..] + [s];
      NextKeeps(g, steps[0]);
      hide Inv, Next, Enabled;
      AfterOneMore(Next(g, steps[0]), steps[1..], s);
    }
  }
}
