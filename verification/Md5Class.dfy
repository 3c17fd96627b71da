// The MD5 object: arrays changed in place by update, final and digest.
module Md5Class {
  import opened Basics
  import opened Md5

  const LONGEST: nat := 0x1_0000_0000 - 64

  // The tail that the padding of final leaves in place of 56 or more bytes.
  function Overwritten(m: seq<Byte>): (r: seq<Byte>)
    requires |m| % 64 >= 56
    ensures |r| == |m|
  {
    m[..Whole(|m|)] + Zeros(56) + LengthBytes(|m|)[..|m| % 64 - 56]
  }

  function Spliced(buffer: seq<Byte>, at: nat, piece: seq<Byte>): (r: seq<Byte>)
    requires at + |piece| <= |buffer|
    ensures |r| == |buffer|
  {
    buffer[..at] + piece + buffer[at + |piece|..]
  }

  // The buffer after the two updates of final.
  function Padded(buffer: seq<Byte>, n: nat): (r: seq<Byte>)
    requires |buffer| == 64
    ensures |r| == 64
  {
    BufferAfter(BufferAfter(buffer, n % 64, Padding(PadLength(n))), 56, LengthBytes(n))
  }

  // The message an object stands for once its digest has been taken.
  function Resumed(m: seq<Byte>): (r: seq<Byte>)
    ensures |r| == |m|
  {
    if |m| % 64 < 56 then m else Overwritten(m)
  }

  class MD5 {
    const transform: BlockFunction
    var state: State
    var low: Word
    var high: Word
    const buffer: array<Byte>
    var digest: seq<Byte>
    var finished: bool
    // what the object stands for
    ghost var message: seq<Byte>

    ghost predicate Valid()
      reads this, buffer
    {
      && buffer.Length == 64
      && state == Fold(transform, INIT, message)
      && Counts(low, high, |message|)
      && buffer[..|message| % 64] == Tail(message)
    }

    constructor (f: BlockFunction)
      ensures Valid() && message == [] && transform == f && !finished && fresh(buffer)
    {
      transform := f;
      buffer := new Byte[64](_ => 0);
      digest := [];
      state, low, high, finished, message := INIT, 0, 0, false, [];
    }

    method Reset()
      requires buffer.Length == 64
      modifies this
      ensures Valid() && message == [] && !finished
    {
      finished := false;
      low, high := 0, 0;
      state := INIT;
      message := [];
    }

    // memcpy(&_buffer[at], &input[from], n)
    method Copy(at: nat, input: seq<Byte>, from: nat, n: nat)
      requires at + n <= buffer.Length && from + n <= |input|
      modifies buffer
      ensures buffer[..] == Spliced(old(buffer[..]), at, input[from..from + n])
    {
      var k := 0;
      while k < n
        invariant k <= n
        invariant buffer[..] == old(buffer[..])[..at] + input[from..from + k] + old(buffer[..])[at + k..]
      {
        buffer[at + k] := input[from + k];
        k := k + 1;
      }
    }

    method AddCount(length: nat)
      requires length <= LONGEST
      modifies this`low, this`high
      ensures low == AddLow(old(low), length) && high == AddHigh(old(low), old(high), length)
    {
      var bits := length % WORDS * 8 % WORDS;
      low := (low + bits) % WORDS;
      if low < bits {
        high := (high + 1) % WORDS;
      }
      high := (high + length % WORDS / 0x2000_0000) % WORDS;
    }

    // Whole blocks of the input from i on; `i + 63` is a 32-bit addition.
    method TransformBlocks(input: seq<Byte>, start: nat, ghost m: seq<Byte>) returns (i: nat)
      requires start <= |input| <= LONGEST && (|m| + start) % 64 == 0
      requires state == Fold(transform, INIT, m + input[..start])
      modifies this`state
      ensures start <= i <= |input| < i + 64 && (|m| + i) % 64 == 0
      ensures state == Fold(transform, INIT, m + input[..i])
    {
      i := start;
      while (i + 63) % WORDS < |input|
        invariant start <= i <= |input| && (|m| + i) % 64 == 0
        invariant state == Fold(transform, INIT, m + input[..i])
        decreases |input| - i
      {
        FoldNextBlock(transform, m, input, i);
        state := transform(state, input[i..i + 64]);
        i := i + 64;
      }
    }

    // The bytes in the buffer before, and the count after.
    method CountBytes(length: nat) returns (index: nat)
      requires Counts(low, high, |message|) && length <= LONGEST
      modifies this`low, this`high
      ensures index == |message| % 64 && Counts(low, high, |message| + length)
    {
      hide Counts, AddLow, AddHigh;
      IndexOfCount(low, high, |message|);
      CountAdded(low, high, |message|, length);
      index := low / 8 % 64;
      AddCount(length);
    }

    // Fills the buffer and folds whole blocks, if there is enough input; the rest is to be copied to `at`.
    method FoldInput(input: seq<Byte>, index: nat) returns (i: nat, at: nat)
      requires buffer.Length == 64 && index == |message| % 64 && buffer[..index] == Tail(message)
      requires |input| <= LONGEST && state == Fold(transform, INIT, message)
      modifies this`state, buffer
      ensures state == Fold(transform, INIT, message + input)
      ensures Folded(message, input, old(buffer[..]), buffer[..], i, at)
    {
      hide Fold, Tail, Spliced;
      ghost var was := buffer[..];
      i, at := 0, index;
      if |input| >= 64 - index {
        Copy(index, input, 0, 64 - index);
        i := FoldBlocks(input, index, message, was);
        at := 0;
      } else {
        FoldTail(transform, message, input);
      }
    }

    method Update(input: seq<Byte>)
      requires Valid() && |input| <= LONGEST
      modifies this, buffer
      ensures Valid() && message == old(message) + input && !finished && digest == old(digest)
      ensures buffer[..] == BufferAfter(old(buffer[..]), |old(message)| % 64, input)
    {
      hide Fold, BufferAfter, Counts, Tail, Spliced, Folded;
      ghost var m, was := message, buffer[..];
      finished := false;
      var index := CountBytes(|input|);
      var i, at := FoldInput(input, index);
      ghost var mid := buffer[..];
      FoldedFits(m, input, was, mid, i, at);
      Copy(at, input, i, |input| - i);
      message := m + input;
      BufferIs(m, input, was, mid, i, at, buffer[..]);
    }

    // The buffer has been filled up: it and the whole blocks that follow are folded.
    method FoldBlocks(input: seq<Byte>, index: nat, ghost m: seq<Byte>, ghost was: seq<Byte>) returns (i: nat)
      requires |was| == 64 && index == |m| % 64 && was[..index] == Tail(m) && 64 <= index + |input|
      requires |input| <= LONGEST && state == Fold(transform, INIT, m)
      requires buffer[..] == Spliced(was, index, input[0..0 + (64 - index)])
      modifies this`state
      ensures buffer[..] == was[..index] + input[..64 - index]
      ensures i <= |input| < i + 64 && (|m| + i) % 64 == 0
      ensures state == Fold(transform, INIT, m + input)
    {
      hide Fold, Tail;
      FirstBlock(transform, m, was, input, buffer[..], index);
      state := transform(state, buffer[..]);
      i := TransformBlocks(input, 64 - index, m);
      LastPartOf(transform, m, input, i);
    }

    /**
     The digest of the message so far.  State and count are put back; the buffer is not.  When 56 or more
     bytes wait in the buffer, the padding runs over them.
     */
    method Final()
      requires Valid()
      modifies this, buffer
      ensures Valid() && digest == Digest(transform, old(message))
      ensures message == Resumed(old(message))
      ensures !finished
    {
      ghost var m, was := message, buffer[..];
      hide Fold, BufferAfter, Counts, Tail, Padding, Resumed, Whole, PadLength, EncodeWord, LengthBytes, EncodeState;
      var oldState, oldLow, oldHigh := state, low, high;
      PadAndEncode();
      state, low, high := oldState, oldLow, oldHigh;
      message := Resumed(m);
      AfterFinal(transform, m, was);
    }

    method PadAndEncode()
      requires Valid()
      modifies this, buffer
      ensures buffer[..] == Padded(old(buffer[..]), |old(message)|)
      ensures digest == Digest(transform, old(message)) && !finished
    {
      ghost var m := message;
      hide Fold, BufferAfter, Counts, Tail, Padding, Whole, PadLength, EncodeWord, LengthBytes, EncodeState;
      var bits := EncodeWord(low) + EncodeWord(high);
      BitsAre(low, high, |m|);
      IndexOfCount(low, high, |m|);
      var index := low / 8 % 64;
      var padLen := if index < 56 then 56 - index else 120 - index;
      PadLengthIs(|m|);
      Update(Padding(padLen));
      assert |message| % 64 == 56;
      Update(bits);
      digest := EncodeState(state);
    }

    method DigestNow() returns (r: seq<Byte>)
      requires Valid()
      modifies this, buffer
      ensures Valid()
      ensures !old(finished) ==>
                && r == Digest(transform, old(message))
                && message == Resumed(old(message))
      ensures !old(finished) ==> !finished
    {
      hide Fold, Counts, Tail, Resumed, Digest;
      if !finished {
        finished := true;
        Final();
      }
      return digest;
    }
  }

  lemma NoTail(m: seq<Byte>)
    requires |m| % 64 == 0
    ensures Tail(m) == []
  {
  }

  lemma FoldNextBlock(f: BlockFunction, m: seq<Byte>, input: seq<Byte>, i: nat)
    requires i + 64 <= |input| && (|m| + i) % 64 == 0
    ensures Fold(f, INIT, m + input[..i + 64]) == f(Fold(f, INIT, m + input[..i]), input[i..i + 64])
  {
    hide Fold, Tail;
    var front, block := m + input[..i], input[i..i + 64];
    assert m + input[..i + 64] == front + block;
    NoTail(front);
    FoldBlockOn(f, front, block);
    assert [] + block == block;
  }

  lemma FirstBlock(f: BlockFunction, m: seq<Byte>, was: seq<Byte>, input: seq<Byte>, now: seq<Byte>, r: nat)
    requires |was| == 64 && r == |m| % 64 && was[..r] == Tail(m) && r + |input| >= 64
    requires now == Spliced(was, r, input[0..0 + (64 - r)])
    ensures now == was[..r] + input[..64 - r]
    ensures (|m| + (64 - r)) % 64 == 0
    ensures f(Fold(f, INIT, m), now) == Fold(f, INIT, m + input[..64 - r])
  {
    hide Fold, Tail;
    FoldBlockOn(f, m, input[..64 - r]);
  }

  lemma LastPartOf(f: BlockFunction, m: seq<Byte>, input: seq<Byte>, i: nat)
    requires i <= |input| < i + 64 && (|m| + i) % 64 == 0
    ensures Fold(f, INIT, m + input) == Fold(f, INIT, m + input[..i])
  {
    hide Fold, Tail;
    var front, rest := m + input[..i], input[i..];
    assert m + input == front + rest;
    assert |front| == |m| + i;
    FoldTail(f, front, rest);
  }

  // Where an update stands before its last copy.
  predicate Folded(m: seq<Byte>, input: seq<Byte>, was: seq<Byte>, mid: seq<Byte>, i: nat, at: nat) {
    var r := |m| % 64;
    && |was| == 64 && |mid| == 64
    && if r + |input| < 64 then i == 0 && at == r && mid == was
       else mid == was[..r] + input[..64 - r] && i <= |input| < i + 64 && (|m| + i) % 64 == 0 && at == 0
  }

  lemma FoldedFits(m: seq<Byte>, input: seq<Byte>, was: seq<Byte>, mid: seq<Byte>, i: nat, at: nat)
    requires Folded(m, input, was, mid, i, at)
    ensures i <= |input| && at + (|input| - i) <= 64 && |mid| == 64 && |was| == 64
  {
  }

  lemma BufferIs(m: seq<Byte>, input: seq<Byte>, was: seq<Byte>, mid: seq<Byte>, i: nat, at: nat, now: seq<Byte>)
    requires Folded(m, input, was, mid, i, at) && was[..|m| % 64] == Tail(m)
    requires i <= |input| && at + (|input| - i) <= 64 && now == Spliced(mid, at, input[i..i + (|input| - i)])
    ensures now == BufferAfter(was, |m| % 64, input)
    ensures now[..(|m| + |input|) % 64] == Tail(m + input)
  {
    hide Tail, Spliced, BufferAfter;
    if |m| % 64 + |input| < 64 {
      BufferPart(m, was, input, now, |m| % 64);
    } else {
      BufferFull(m, was, mid, input, i, now, |m| % 64);
    }
  }

  // What an update that fills no block leaves in the buffer.
  lemma BufferPart(m: seq<Byte>, was: seq<Byte>, input: seq<Byte>, now: seq<Byte>, r: nat)
    requires |was| == 64 && r == |m| % 64 && was[..r] == Tail(m) && r + |input| < 64
    requires now == Spliced(was, r, input[0..0 + |input|])
    ensures now == BufferAfter(was, r, input)
    ensures now[..(|m| + |input|) % 64] == Tail(m + input)
  {
    assert (|m| + |input|) % 64 == r + |input|;
    assert Tail(m + input) == Tail(m) + input;
  }

  // What an update that fills a block leaves in the buffer: two copies.
  lemma BufferFull(m: seq<Byte>, was: seq<Byte>, mid: seq<Byte>, input: seq<Byte>, i: nat, now: seq<Byte>, r: nat)
    requires |was| == 64 && r == |m| % 64 && r + |input| >= 64
    requires mid == was[..r] + input[..64 - r]
    requires i <= |input| < i + 64 && (|m| + i) % 64 == 0
    requires now == Spliced(mid, 0, input[i..i + (|input| - i)])
    ensures now == BufferAfter(was, r, input)
    ensures now[..(|m| + |input|) % 64] == Tail(m + input)
  {
    var rest := |input| - i;
    RestOf(|m|, |input|, i);
    TailOf(m, input, i);
    assert now == input[i..] + mid[rest..] by {
      assert input[i..i + (|input| - i)] == input[i..];
    }
    hide Tail, Spliced;
    assert |input| - rest == i;
  }

  lemma RestOf(n: nat, length: nat, i: nat)
    requires i <= length < i + 64 && (n + i) % 64 == 0
    ensures (n + length) % 64 == length - i && (n % 64 + length) % 64 == length - i
  {
  }

  lemma TailOf(m: seq<Byte>, input: seq<Byte>, i: nat)
    requires i <= |input| < i + 64 && (|m| + i) % 64 == 0
    ensures Tail(m + input) == input[i..]
  {
    RestOf(|m|, |input|, i);
    assert |m + input| == |m| + |input|;
    assert Whole(|m| + |input|) == |m| + i by {
      hide Whole;
    }
    hide Whole;
    assert (m + input)[|m| + i..] == input[i..];
  }

  // The two updates of final leave this in the buffer.
  lemma BufferAfterFinal(buffer: seq<Byte>, n: nat, bits: seq<Byte>)
    requires |buffer| == 64 && |bits| == 8
    ensures var mid := BufferAfter(buffer, n % 64, Padding(PadLength(n)));
            var last := BufferAfter(mid, 56, bits);
            last == if n % 64 < 56 then mid[..56] + bits else Zeros(56) + bits
    ensures n % 64 < 56 ==> BufferAfter(buffer, n % 64, Padding(PadLength(n)))[..n % 64] == buffer[..n % 64]
  {
    var r := n % 64;
    var pad := Padding(PadLength(n));
    if r < 56 {
      assert r + |pad| == 56;
    } else {
      assert (r + |pad|) % 64 == 56;
      assert pad[|pad| - 56..] == Zeros(56);
    }
  }

  lemma OverwrittenTail(m: seq<Byte>)
    requires |m| % 64 >= 56
    ensures Tail(Overwritten(m)) == (Zeros(56) + LengthBytes(|m|))[..|m| % 64]
    ensures Overwritten(m)[..Whole(|m|)] == m[..Whole(|m|)]
  {
  }

  lemma BitsAre(low: Word, high: Word, n: nat)
    requires Counts(low, high, n)
    ensures EncodeWord(low) + EncodeWord(high) == LengthBytes(n)
  {
    CountsModulo(low, high, n);
  }

  lemma PadLengthIs(n: nat)
    ensures PadLength(n) == if n % 64 < 56 then 56 - n % 64 else 120 - n % 64
  {
  }

  lemma AfterFinal(f: BlockFunction, m: seq<Byte>, was: seq<Byte>)
    requires |was| == 64 && was[..|m| % 64] == Tail(m)
    ensures Padded(was, |m|)[..|m| % 64] == Tail(Resumed(m))
    ensures Fold(f, INIT, Resumed(m)) == Fold(f, INIT, m)
  {
    hide Fold, BufferAfter, Tail, Padding, Overwritten, Whole;
    BufferAfterFinal(was, |m|, LengthBytes(|m|));
    if |m| % 64 >= 56 {
      OverwrittenTail(m);
      FoldWholeBlocks(f, m);
      FoldWholeBlocks(f, Overwritten(m));
    }
  }

  // The folded state depends on the whole blocks only.
  lemma FoldWholeBlocks(f: BlockFunction, m: seq<Byte>)
    ensures Fold(f, INIT, m) == Fold(f, INIT, m[..Whole(|m|)])
  {
    hide Fold, Tail, Whole;
    var front, tail := m[..Whole(|m|)], m[Whole(|m|)..];
    assert m == front + tail;
    FoldTail(f, front, tail);
  }

  // ---------- what a caller sees ----------

  function Concat(pieces: seq<seq<Byte>>): seq<Byte> {
    if pieces == [] then [] else Concat(pieces[..|pieces| - 1]) + pieces[|pieces| - 1]
  }

  // The pieces in which a message is fed do not show in its digest.
  method Hash(f: BlockFunction, pieces: seq<seq<Byte>>) returns (r: seq<Byte>)
    requires forall i :: 0 <= i < |pieces| ==> |pieces[i]| <= LONGEST
    ensures r == Digest(f, Concat(pieces))
  {
    var md5 := new MD5(f);
    var k := 0;
    while k < |pieces|
      invariant k <= |pieces| && md5.Valid() && md5.transform == f && !md5.finished && fresh(md5) && fresh(md5.buffer)
      invariant md5.message == Concat(pieces[..k])
      decreases |pieces| - k
    {
      md5.Update(pieces[k]);
      assert pieces[..k + 1][..k] == pieces[..k];
      k := k + 1;
    }
    assert pieces[..k] == pieces;
    r := md5.DigestNow();
  }

  // Taking the digest leaves the message as it was, exactly when fewer than 56 bytes wait or they are what
  // the padding writes.
  lemma ResumedExactly(m: seq<Byte>)
    ensures Resumed(m) == m
            <==> |m| % 64 < 56 || Tail(m) == (Zeros(56) + LengthBytes(|m|))[..|m| % 64]
  {
    if |m| % 64 >= 56 {
      OverwrittenTail(m);
      assert m == m[..Whole(|m|)] + Tail(m);
      assert Overwritten(m) == Overwritten(m)[..Whole(|m|)] + Tail(Overwritten(m));
    }
  }

  datatype Call = Feed(input: seq<Byte>) | TakeDigest

  function MessageAfter(m: seq<Byte>, calls: seq<Call>): seq<Byte>
    decreases |calls|
  {
    if calls == [] then m
    else MessageAfter(if calls[0].Feed? then m + calls[0].input else Resumed(m), calls[1..])
  }

  function Fed(calls: seq<Call>): seq<Byte> {
    if calls == [] then [] else (if calls[0].Feed? then calls[0].input else []) + Fed(calls[1..])
  }

  predicate Early(n: nat, calls: seq<Call>)
    decreases |calls|
  {
    calls == [] || (if calls[0].Feed? then Early(n + |calls[0].input|, calls[1..]) else n % 64 < 56 && Early(n, calls[1..]))
  }

  // Digests taken while fewer than 56 bytes wait do not show in what follows.
  lemma {:induction false} EarlyDigestsDoNotShow(m: seq<Byte>, calls: seq<Call>)
    requires Early(|m|, calls)
    ensures MessageAfter(m, calls) == m + Fed(calls)
    decreases |calls|
  {
    if calls != [] {
      if calls[0].Feed? {
        EarlyDigestsDoNotShow(m + calls[0].input, calls[1..]);
        assert (m + calls[0].input) + Fed(calls[1..]) == m + (calls[0].input + Fed(calls[1..]));
      } else {
        EarlyDigestsDoNotShow(m, calls[1..]);
        assert [] + Fed(calls[1..]) == Fed(calls[1..]);
      }
    }
  }

  // The object does what MessageAfter says of its calls; the results are the digests on the way.
  method Serve(md5: MD5, calls: seq<Call>) returns (digests: seq<seq<Byte>>)
    requires md5.Valid() && !md5.finished
    requires forall i :: 0 <= i < |calls| && calls[i].Feed? ==> |calls[i].input| <= LONGEST
    modifies md5, md5.buffer
    ensures md5.Valid() && md5.message == MessageAfter(old(md5.message), calls)
    ensures digests == Digests(md5.transform, old(md5.message), calls)
  {
    digests := [];
    var k := 0;
    assert calls[0..] == calls;
    while k < |calls|
      invariant k <= |calls| && md5.Valid() && !md5.finished
      invariant MessageAfter(md5.message, calls[k..]) == MessageAfter(old(md5.message), calls)
      invariant digests + Digests(md5.transform, md5.message, calls[k..]) ==
                Digests(md5.transform, old(md5.message), calls)
      decreases |calls| - k
    {
      hide Digest, Fold, Resumed;
      assert calls[k..][1..] == calls[k + 1..];
      if calls[k].Feed? {
        md5.Update(calls[k].input);
      } else {
        var d := md5.DigestNow();
        digests := digests + [d];
      }
      k := k + 1;
    }
  }

  function Digests(f: BlockFunction, m: seq<Byte>, calls: seq<Call>): seq<seq<Byte>>
    decreases |calls|
  {
    if calls == [] then []
    else if calls[0].Feed? then Digests(f, m + calls[0].input, calls[1..])
    else [Digest(f, m)] + Digests(f, Resumed(m), calls[1..])
  }
}
