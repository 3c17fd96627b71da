/**
 Lengths that are announced in digits: the value of Content-Length and the size of a chunk, in 64 bits
 and with the source's overflow test.
 */
module HttpLengths {
  import opened Basics
  import opened HttpSyntax
  import opened HttpParser
  import opened HttpSplit

  // ---------------------------------------------------------------- digits

  /** The digits so far are kept exactly iff the true value is below 2^64 - 1. */
  lemma AccumulateExact(length: nat, base: nat, digit: nat)
    requires length < ULLONG_MAX && (base == 10 || base == 16) && digit < base
    ensures Accumulate(length, base, digit) == Some(length * base + digit) <==> length * base + digit < ULLONG_MAX
  {}

  predicate DigitByte(base: nat, ch: Byte) { if base == 10 then IsNum(ch) else Unhex(ch) != -1 }

  function DigitOf(base: nat, ch: Byte): nat
    requires DigitByte(base, ch)
  {
    if base == 10 then ch - '0' as int else Unhex(ch)
  }

  predicate Digits(base: nat, digits: seq<Byte>) { forall i :: 0 <= i < |digits| ==> DigitByte(base, digits[i]) }

  /** The number that the digits spell. */
  function ValueOf(base: nat, digits: seq<Byte>): nat
    requires Digits(base, digits)
  {
    if digits == [] then 0 else ValueOf(base, digits[..|digits| - 1]) * base + DigitOf(base, digits[|digits| - 1])
  }

  /** What the accumulation makes of them. */
  function ReadDigits(base: nat, digits: seq<Byte>): Option<nat>
    requires Digits(base, digits)
  {
    if digits == [] then Some(0)
    else
      var front := ReadDigits(base, digits[..|digits| - 1]);
      if front.None? then None else Accumulate(front.value, base, DigitOf(base, digits[|digits| - 1]))
  }

  /** A length is read as what it says if and only if it is below 2^64 - 1. */
  lemma {:induction false} DigitsExact(base: nat, digits: seq<Byte>)
    requires (base == 10 || base == 16) && Digits(base, digits)
    ensures ReadDigits(base, digits) == Some(ValueOf(base, digits)) <==> ValueOf(base, digits) < ULLONG_MAX
    ensures ReadDigits(base, digits).Some? ==> ReadDigits(base, digits).value < ULLONG_MAX
  {
    if digits != [] {
      var front, d := digits[..|digits| - 1], DigitOf(base, digits[|digits| - 1]);
      DigitsExact(base, front);
      if ReadDigits(base, front).Some? {
        AccumulateExact(ReadDigits(base, front).value, base, d);
      }
    }
  }

  lemma {:induction false} NoneStays(base: nat, front: seq<Byte>, more: seq<Byte>)
    requires Digits(base, front + more) && Digits(base, front) && ReadDigits(base, front).None?
    ensures ReadDigits(base, front + more).None?
    decreases |more|
  {
    if more == [] {
      assert front + more == front;
    } else {
      var last := |more| - 1;
      assert (front + more)[..|front + more| - 1] == front + more[..last];
      assert forall i :: 0 <= i < |front + more[..last]| ==> (front + more[..last])[i] == (front + more)[i];
      NoneStays(base, front, more[..last]);
    }
  }

  // ---------------------------------------------------------------- the parser over digits

  /** In front of the digits of a length, and among them. */
  predicate AtLength(p: Parser, base: nat) {
    Valid(p) && if base == 10 then p.state.HeaderValueStart? && p.headerMatch.ContentLength? else p.state.ChunkSizeStart?
  }

  predicate InLength(p: Parser, base: nat) {
    Valid(p) && if base == 10 then p.state.HeaderValue? && p.headerMatch.ContentLength? else p.state.ChunkSize?
  }

  lemma FirstOfLength(p: Parser, base: nat, ch: Byte)
    requires AtLength(p, base) && (base == 10 || base == 16) && DigitByte(base, ch) && p.nread < MAX_HEADER_SIZE
    ensures var e := Step(p, ch);
            && e.status.Running? && InLength(e.parser, base) && e.parser.contentLength == DigitOf(base, ch)
            && e.parser.nread == p.nread + 1
  {
    var q := Count(p);
    assert MidByte(q);
    assert Switch(q, ch) == if base == 10 then PassValueStart(q, ch) else PassChunkSizeStart(q, ch);
    hide Switch, ParseUrlChar;
  }

  lemma NextOfLength(p: Parser, base: nat, ch: Byte)
    requires InLength(p, base) && (base == 10 || base == 16) && DigitByte(base, ch) && p.nread < MAX_HEADER_SIZE
    ensures var e, t := Step(p, ch), Accumulate(p.contentLength, base, DigitOf(base, ch));
            if t.Some? then
              && e.status.Running? && InLength(e.parser, base) && e.parser.contentLength == t.value
              && e.parser.nread == p.nread + 1
            else e.status.Failed? && e.parser.errno == INVALID_CONTENT_LENGTH
  {
    var q := Count(p);
    assert MidByte(q);
    assert Switch(q, ch) == if base == 10 then PassValue(q, ch) else PassChunkSize(q, ch);
    hide Switch, Accumulate;
  }

  predicate ReadAs(t: Trace, base: nat, length: Option<nat>) {
    if length.Some? then t.status.Running? && InLength(t.parser, base) && t.parser.contentLength == length.value
    else t.status.Failed? && t.parser.errno == INVALID_CONTENT_LENGTH
  }

  lemma {:induction false} MoreDigits(p: Parser, base: nat, front: seq<Byte>, more: seq<Byte>)
    requires InLength(p, base) && (base == 10 || base == 16) && p.nread + |more| <= MAX_HEADER_SIZE
    requires Digits(base, front) && Digits(base, front + more) && ReadDigits(base, front) == Some(p.contentLength)
    ensures ReadAs(Run(p, more), base, ReadDigits(base, front + more))
    decreases |more|
  {
    hide Step, Accumulate, StateOk;
    if more == [] {
      assert front + more == front;
    } else {
      var ch := more[0];
      assert ch == (front + more)[|front|];
      var longer := front + [ch];
      assert longer + more[1..] == front + more && longer[..|longer| - 1] == front;
      assert forall i :: 0 <= i < |longer| ==> longer[i] == (front + more)[i];
      NextOfLength(p, base, ch);
      if ReadDigits(base, longer).Some? {
        MoreDigits(Step(p, ch).parser, base, longer, more[1..]);
      } else {
        NoneStays(base, longer, more[1..]);
      }
    }
  }

  /**
   The digits of a length, run through the parser: it ends with their value as ReadDigits has it, or in the
   error for lengths.
   */
  lemma LengthIsRead(p: Parser, base: nat, digits: seq<Byte>)
    requires AtLength(p, base) && (base == 10 || base == 16) && digits != [] && Digits(base, digits)
    requires p.nread + |digits| <= MAX_HEADER_SIZE
    ensures ReadAs(Run(p, digits), base, ReadDigits(base, digits))
  {
    hide Step, StateOk, ReadDigits, DigitOf;
    var ch, more := digits[0], digits[1..];
    FirstOfLength(p, base, ch);
    assert [ch] + more == digits;
    OneDigit(base, ch);
    MoreDigits(Step(p, ch).parser, base, [ch], more);
  }

  lemma OneDigit(base: nat, ch: Byte)
    requires (base == 10 || base == 16) && DigitByte(base, ch)
    ensures ReadDigits(base, [ch]) == Some(DigitOf(base, ch))
  {
    assert [ch][..0] == [];
    assert Accumulate(0, base, DigitOf(base, ch)) == Some(DigitOf(base, ch));
  }

  /** So the parser holds the announced length if and only if that is below 2^64 - 1. */
  lemma LengthIsExact(p: Parser, base: nat, digits: seq<Byte>)
    requires AtLength(p, base) && (base == 10 || base == 16) && digits != [] && Digits(base, digits)
    requires p.nread + |digits| <= MAX_HEADER_SIZE
    ensures var t := Run(p, digits);
            (t.status.Running? && t.parser.contentLength == ValueOf(base, digits)) <==> ValueOf(base, digits) < ULLONG_MAX
  {
    LengthIsRead(p, base, digits);
    DigitsExact(base, digits);
    hide Run, ReadDigits, ValueOf;
  }

  // ---------------------------------------------------------------- a length that wraps

  /** "Content-Length: " */
  function LengthName(): (r: seq<Byte>)
    ensures |r| == 16
  {
    [67, 111, 110, 116, 101, 110, 116, 45, 76, 101, 110, 103, 116, 104, 58, 32]
  }

  /** The parser after k bytes of it. */
  function LengthNameAt(p: Parser, k: nat): Parser {
    var q := p.(nread := p.nread + k);
    if k == 0 then p
    else if k <= 14 then
      q.(state := HeaderField, index := k - 1,
      headerMatch := if k == 1 then SeenC else if k == 2 then SeenCO else if k == 3 then SeenCON
      else if k <= 13 then MatchingContentLength else ContentLength)
    else q.(state := HeaderValueStart, index := 13, headerMatch := ContentLength)
  }

  lemma LengthLetter(k: nat)
    requires k < 14
    ensures Token(LengthName()[k]) == "content-length"[k] as int && LengthName()[k] != CR && LengthName()[k] != LF
  {
  }

  lemma LengthNameStart(p: Parser)
    requires Valid(p) && p.state.HeaderFieldStart? && p.nread < MAX_HEADER_SIZE
    ensures Step(p, 67).status.Running? && Step(p, 67).parser == LengthNameAt(p, 1)
  {
    var q := Count(p);
    assert MidByte(q) && Token(67) == 'c' as int;
    hide StateOk, Token;
    assert Switch(q, 67) == PassFieldStart(q, 67);
    hide Switch;
  }

  lemma LengthNameStep(p: Parser, k: nat)
    requires Valid(p) && p.state.HeaderFieldStart? && 1 <= k < 14 && p.nread + k < MAX_HEADER_SIZE
    ensures Valid(LengthNameAt(p, k))
    ensures var e := Step(LengthNameAt(p, k), LengthName()[k]);
            e.status.Running? && e.parser == LengthNameAt(p, k + 1)
  {
    var q, ch := Count(LengthNameAt(p, k)), LengthName()[k];
    LengthLetter(k);
    assert MidByte(q) && Valid(LengthNameAt(p, k));
    hide StateOk, Token, LengthName;
    assert Switch(q, ch) == PassField(q, ch);
    hide Switch;
  }

  lemma LengthNameColon(p: Parser)
    requires Valid(p) && p.state.HeaderFieldStart? && p.nread + 14 < MAX_HEADER_SIZE
    ensures Valid(LengthNameAt(p, 14))
    ensures var e := Step(LengthNameAt(p, 14), LengthName()[14]);
            e.status.Running? && e.parser == LengthNameAt(p, 15)
  {
    var q, ch := Count(LengthNameAt(p, 14)), LengthName()[14];
    assert MidByte(q) && Valid(LengthNameAt(p, 14));
    hide StateOk;
    assert Switch(q, ch) == PassField(q, ch);
    hide Switch;
  }

  lemma LengthNameBlank(p: Parser)
    requires Valid(p) && p.state.HeaderFieldStart? && p.nread + 15 < MAX_HEADER_SIZE
    ensures Valid(LengthNameAt(p, 15))
    ensures var e := Step(LengthNameAt(p, 15), LengthName()[15]);
            e.status.Running? && e.parser == LengthNameAt(p, 16)
  {
    var q, ch := Count(LengthNameAt(p, 15)), LengthName()[15];
    assert MidByte(q) && Valid(LengthNameAt(p, 15));
    hide StateOk;
    assert Switch(q, ch) == PassValueStart(q, ch);
    hide Switch;
  }

  lemma {:induction false} LengthNameRun(p: Parser, k: nat)
    requires Valid(p) && p.state.HeaderFieldStart? && k <= 16 && p.nread + 16 < MAX_HEADER_SIZE
    ensures Valid(LengthNameAt(p, k))
    ensures var t := Run(LengthNameAt(p, k), LengthName()[k..]);
            t.status.Running? && t.parser == LengthNameAt(p, 16)
    decreases 16 - k
  {
    hide Step, LengthName, StateOk;
    if k < 16 {
      var rest := LengthName()[k..];
      assert rest[0] == LengthName()[k] && rest[1..] == LengthName()[k + 1..];
      assert Valid(LengthNameAt(p, 0));
      if k == 0 {
        assert LengthName()[0] == 67 by {
          LengthNameFirst();
        }
        LengthNameStart(p);
      } else if k < 14 {
        LengthNameStep(p, k);
      } else if k == 14 {
        LengthNameColon(p);
      } else {
        LengthNameBlank(p);
      }
      hide LengthNameAt;
      LengthNameRun(p, k + 1);
    } else {
      LengthNameEnds(p);
    }
  }

  lemma LengthNameFirst()
    ensures LengthName()[0] == 67
  {
  }

  lemma LengthNameEnds(p: Parser)
    requires Valid(p) && p.state.HeaderFieldStart? && p.nread + 16 <= MAX_HEADER_SIZE
    ensures AtLength(LengthNameAt(p, 16), 10) && LengthNameAt(p, 16).nread == p.nread + 16
    ensures LengthName()[16..] == []
  {
  }

  /** 20496382304121724020 */
  function WrappingDigits(): (r: seq<Byte>)
    ensures |r| == 20
  {
    [50, 48, 52, 57, 54, 51, 56, 50, 51, 48, 52, 49, 50, 49, 55, 50, 52, 48, 50, 48]
  }

  lemma OneMoreDigit(front: seq<Byte>, ch: Byte)
    requires Digits(10, front) && DigitByte(10, ch)
    ensures Digits(10, front + [ch]) && ValueOf(10, front + [ch]) == ValueOf(10, front) * 10 + DigitOf(10, ch)
    ensures ReadDigits(10, front + [ch]) ==
            if ReadDigits(10, front).None? then None else Accumulate(ReadDigits(10, front).value, 10, DigitOf(10, ch))
  {
    assert (front + [ch])[..|front|] == front;
  }

  /** The value of the first k of them. */
  function WrappingPrefix(k: nat): nat
    requires k < 20
  {
    [0, 2, 20, 204,
     2049, 20496, 204963, 2049638,
     20496382, 204963823, 2049638230, 20496382304,
     204963823041, 2049638230412, 20496382304121, 204963823041217,
     2049638230412172, 20496382304121724, 204963823041217240, 2049638230412172402][k]
  }

  lemma WrappingStep(k: nat)
    requires k < 19
    ensures DigitByte(10, WrappingDigits()[k])
    ensures WrappingPrefix(k + 1) == WrappingPrefix(k) * 10 + DigitOf(10, WrappingDigits()[k])
  {
  }

  lemma WrappingEnds()
    ensures WrappingPrefix(0) == 0 && WrappingPrefix(19) == 2049638230412172402
    ensures WrappingDigits()[19] == '0' as int
  {
  }

  /** The overflow test lets this one through, wrapped. */
  lemma WrappingValue()
    ensures Digits(10, WrappingDigits()) && ValueOf(10, WrappingDigits()) == 20496382304121724020
    ensures ReadDigits(10, WrappingDigits()) == Some(2049638230412172404)
  {
    var d := WrappingDigits();
    WrappingEnds();
    hide WrappingDigits, WrappingPrefix;
    for k := 0 to 19
      invariant Digits(10, d[..k]) && ValueOf(10, d[..k]) == WrappingPrefix(k)
    {
      hide ValueOf, ReadDigits;
      WrappingStep(k);
      OneMoreDigit(d[..k], d[k]);
      assert d[..k + 1] == d[..k] + [d[k]];
    }
    hide ValueOf, ReadDigits;
    DigitsExact(10, d[..19]);
    OneMoreDigit(d[..19], d[19]);
    assert d == d[..19] + [d[19]];
    AccumulateWraps();
  }

  lemma AccumulateWraps()
    ensures Accumulate(2049638230412172402, 10, 0) == Some(2049638230412172404)
  {
  }

  /** The header line "Content-Length: 20496382304121724020" announces a body of 2049638230412172404 bytes. */
  lemma ALengthWraps(p: Parser)
    requires Valid(p) && p.state.HeaderFieldStart? && p.nread + 36 <= MAX_HEADER_SIZE
    ensures var t := Run(p, LengthName() + WrappingDigits());
            t.status.Running? && InLength(t.parser, 10) && t.parser.contentLength == 2049638230412172404
  {
    hide Step, StateOk, LengthNameAt, WrappingDigits, LengthName, ReadDigits, ValueOf;
    LengthNameRun(p, 0);
    LengthNameEnds(p);
    WrappingValue();
    assert LengthNameAt(p, 0) == p by {
      LengthNameBegins(p);
    }
    assert LengthName()[0..] == LengthName();
    LengthIsRead(LengthNameAt(p, 16), 10, WrappingDigits());
    RunConcat(p, LengthName(), WrappingDigits());
  }

  lemma LengthNameBegins(p: Parser)
    ensures LengthNameAt(p, 0) == p
  {
  }
}
