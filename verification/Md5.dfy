/**
 Streaming MD5 for an arbitrary block function: sections 3.1 to 3.4 of RFC 1321 with the block function
 as a parameter.
 */
module Md5 {
  import opened Basics

  const WORDS: nat := 0x1_0000_0000
  const DOUBLE_WORDS: nat := 0x1_0000_0000_0000_0000

  type Word = w: int | 0 <= w < 0x1_0000_0000

  // The four words A, B, C and D.
  datatype State = State(a: Word, b: Word, c: Word, d: Word)

  type BlockFunction = (State, seq<Byte>) -> State

  const INIT: State := State(0x67452301, 0xefcdab89, 0x98badcfe, 0x10325476)

  // ---------- words and bytes ----------

  function EncodeWord(w: Word): (r: seq<Byte>)
    ensures |r| == 4
  {
    [w % 256, w / 256 % 256, w / 65536 % 256, w / 16777216]
  }

  function DecodeWord(b: seq<Byte>): Word
    requires |b| == 4
  {
    var b0: int, b1: int, b2: int, b3: int := b[0], b[1], b[2], b[3];
    b0 + 256 * b1 + 65536 * b2 + 16777216 * b3
  }

  lemma WordRoundTrip(w: Word)
    ensures DecodeWord(EncodeWord(w)) == w
  {
  }

  lemma ByteRoundTrip(b: seq<Byte>)
    requires |b| == 4
    ensures EncodeWord(DecodeWord(b)) == b
  {
    var w := DecodeWord(b);
    var b1: int, b2: int, b3: int := b[1], b[2], b[3];
    assert w / 256 == b1 + 256 * b2 + 65536 * b3;
    assert w / 65536 == b2 + 256 * b3;
  }

  function EncodeState(s: State): (r: seq<Byte>)
    ensures |r| == 16
  {
    EncodeWord(s.a) + EncodeWord(s.b) + EncodeWord(s.c) + EncodeWord(s.d)
  }

  // ---------- the definition ----------

  function Fold(f: BlockFunction, s: State, m: seq<Byte>): State
    decreases |m|
  {
    if |m| < 64 then s else Fold(f, f(s, m[..64]), m[64..])
  }

  function Zeros(n: nat): (z: seq<Byte>)
    ensures |z| == n && forall i :: 0 <= i < n ==> z[i] == 0
  {
    seq(n, _ => 0)
  }

  // The number of bytes that pads a message of n bytes to 56 modulo 64; at least one.
  function PadLength(n: nat): (k: nat)
    ensures 1 <= k <= 64 && (n + k) % 64 == 56
  {
    if n % 64 < 56 then 56 - n % 64 else 120 - n % 64
  }

  function Padding(n: nat): (p: seq<Byte>)
    requires n >= 1
    ensures |p| == n && p[0] == 0x80
  {
    [0x80] + Zeros(n - 1)
  }

  // The length in bits, low-order word first.
  function LengthBytes(n: nat): (r: seq<Byte>)
    ensures |r| == 8
  {
    EncodeWord(8 * n % WORDS) + EncodeWord(8 * n / WORDS % WORDS)
  }

  function Digest(f: BlockFunction, m: seq<Byte>): seq<Byte> {
    EncodeState(Fold(f, INIT, m + Padding(PadLength(|m|)) + LengthBytes(|m|)))
  }

  // ---------- what the digest says ----------

  // Bit k, the lowest first.
  function Bit(n: nat, k: nat): nat {
    if k == 0 then n % 2 else Bit(n / 2, k - 1)
  }

  lemma BitOfHalves(n: nat, k: nat)
    ensures Bit(n, 4 + k) == Bit(n / 16, k)
  {
    assert Bit(n, 4 + k) == Bit(n / 2, 3 + k);
    assert Bit(n / 2, 3 + k) == Bit(n / 2 / 2, 2 + k);
    assert Bit(n / 4, 2 + k) == Bit(n / 4 / 2, 1 + k);
    assert Bit(n / 8, 1 + k) == Bit(n / 8 / 2, k);
  }

  lemma BitOfHigher(n: nat, k: nat)
    ensures Bit(n, 8 + k) == Bit(n / 256, k)
  {
    BitOfHalves(n, 4 + k);
    BitOfHalves(n / 16, k);
  }

  // A low bit of a number is a bit of its remainder.
  lemma {:induction false} BitOfLower(q: nat, m: nat, r: nat, k: nat, j: nat)
    requires j < k && m == Power(k)
    ensures Bit(m * q + r, j) == Bit(r, j)
    decreases j
  {
    var x := Power(k - 1) * q;
    assert m * q == 2 * x by {
      assert m == 2 * Power(k - 1);
    }
    assert (2 * x + r) % 2 == r % 2 && (2 * x + r) / 2 == x + r / 2;
    if j > 0 {
      BitOfLower(q, Power(k - 1), r / 2, k - 1, j - 1);
    }
  }

  function Power(k: nat): nat {
    if k == 0 then 1 else 2 * Power(k - 1)
  }

  lemma ByteBit(n: nat, j: nat)
    requires j < 8
    ensures Bit(n % 256, j) == Bit(n, j)
  {
    assert Power(4) == 16 && Power(8) == 256;
    BitOfLower(n / 256, 256, n % 256, 8, j);
    assert n == 256 * (n / 256) + n % 256;
  }

  // Byte k of a word holds its bits 8k to 8k + 7: low-order byte first.
  lemma EncodedBits(w: Word, k: nat, j: nat)
    requires k < 4 && j < 8
    ensures Bit(EncodeWord(w)[k], j) == Bit(w, 8 * k + j)
  {
    var b := EncodeWord(w);
    var w1, w2, w3 := w / 256, w / 65536, w / 16777216;
    assert b[0] == w % 256 && b[1] == w1 % 256 && b[2] == w2 % 256 && b[3] == w3;
    assert w1 / 256 == w2 && w2 / 256 == w3 && w3 % 256 == w3;
    hide EncodeWord, Bit;
    ByteBit(w, j);
    ByteBit(w1, j);
    ByteBit(w2, j);
    BitOfHigher(w, j);
    BitOfHigher(w, 8 + j);
    BitOfHigher(w1, j);
    BitOfHigher(w, 16 + j);
    BitOfHigher(w1, 8 + j);
    BitOfHigher(w2, j);
  }

  // The first state, as the bytes that it would be read from.
  lemma InitBytes()
    ensures EncodeState(INIT) == [0x01, 0x23, 0x45, 0x67, 0x89, 0xab, 0xcd, 0xef,
                                  0xfe, 0xdc, 0xba, 0x98, 0x76, 0x54, 0x32, 0x10]
  {
  }

  // The padded message: whole blocks; the message, one bit, zeros, and the length in bits in eight bytes.
  predicate PaddedForm(m: seq<Byte>, p: seq<Byte>) {
    && |p| % 64 == 0 && |m| + 9 <= |p| <= |m| + 72
    && p[..|m|] == m && p[|m|] == 0x80
    && (forall i :: |m| < i < |p| - 8 ==> p[i] == 0)
    && DecodeWord(p[|p| - 8..|p| - 4]) + WORDS * DecodeWord(p[|p| - 4..]) == 8 * |m| % DOUBLE_WORDS
  }

  lemma PaddedParts(m: seq<Byte>, pad: seq<Byte>, low: seq<Byte>, high: seq<Byte>)
    requires |low| == 4 && |high| == 4 && |pad| >= 1
    ensures var p := m + pad + (low + high);
            && |p| == |m| + |pad| + 8 && p[..|m|] == m && p[|m|] == pad[0]
            && (forall i :: |m| < i < |p| - 8 ==> p[i] == pad[i - |m|])
            && p[|p| - 8..|p| - 4] == low && p[|p| - 4..] == high
  {
  }

  lemma FormOf(m: seq<Byte>, pad: seq<Byte>, low: Word, high: Word)
    requires 1 <= |pad| <= 64 && (|m| + |pad|) % 64 == 56 && pad[0] == 0x80 && forall i :: 0 < i < |pad| ==> pad[i] == 0
    requires low + WORDS * high == 8 * |m| % DOUBLE_WORDS
    ensures PaddedForm(m, m + pad + (EncodeWord(low) + EncodeWord(high)))
  {
    WordRoundTrip(low);
    WordRoundTrip(high);
    hide EncodeWord, DecodeWord;
    PaddedParts(m, pad, EncodeWord(low), EncodeWord(high));
  }

  lemma PaddedIs(m: seq<Byte>)
    ensures PaddedForm(m, m + Padding(PadLength(|m|)) + LengthBytes(|m|))
  {
    var pad, low, high := Padding(PadLength(|m|)), 8 * |m| % WORDS, 8 * |m| / WORDS % WORDS;
    assert forall i :: 0 < i < |pad| ==> pad[i] == 0;
    hide Padding, PadLength, PaddedForm;
    CountsModulo(low, high, |m|);
    FormOf(m, pad, low, high);
  }

  /**
   The digest, word by word: the four words of the first state, folded over the padded message, in their order
   and each with its low-order byte first.
   */
  lemma DigestWords(f: BlockFunction, m: seq<Byte>, p: seq<Byte>)
    requires PaddedForm(m, p)
    ensures var r, s := Digest(f, m), Fold(f, INIT, p);
            && |r| == 16
            && DecodeWord(r[..4]) == s.a && DecodeWord(r[4..8]) == s.b
            && DecodeWord(r[8..12]) == s.c && DecodeWord(r[12..]) == s.d
  {
    PaddedIs(m);
    OnePadded(m, p, m + Padding(PadLength(|m|)) + LengthBytes(|m|));
    var s := Fold(f, INIT, p);
    hide Fold, Padding, LengthBytes, PadLength;
    WordRoundTrip(s.a);
    WordRoundTrip(s.b);
    WordRoundTrip(s.c);
    WordRoundTrip(s.d);
    var r := Digest(f, m);
    assert r[..4] == EncodeWord(s.a) && r[4..8] == EncodeWord(s.b);
    assert r[8..12] == EncodeWord(s.c) && r[12..] == EncodeWord(s.d);
  }

  // There is one padded form.
  lemma OnePadded(m: seq<Byte>, p: seq<Byte>, q: seq<Byte>)
    requires PaddedForm(m, p) && PaddedForm(m, q)
    ensures p == q
  {
    var n := |p|;
    SameLength(|m|, |p|, |q|);
    assert n >= 9;
    assert DecodeWord(p[n - 8..n - 4]) + WORDS * DecodeWord(p[n - 4..]) ==
           DecodeWord(q[n - 8..n - 4]) + WORDS * DecodeWord(q[n - 4..]) by {
      hide DecodeWord;
    }
    SameWords(p[n - 8..n - 4], p[n - 4..], q[n - 8..n - 4], q[n - 4..]);
    hide DecodeWord;
    PaddedSplits(m, p);
    PaddedSplits(m, q);
    hide PaddedForm;
  }

  lemma SameLength(n: nat, a: nat, b: nat)
    requires a % 64 == 0 && b % 64 == 0 && n + 9 <= a <= n + 72 && n + 9 <= b <= n + 72
    ensures a == b
  {
  }

  lemma PaddedSplits(m: seq<Byte>, p: seq<Byte>)
    requires PaddedForm(m, p)
    ensures p == m + [0x80] + Zeros(|p| - |m| - 9) + p[|p| - 8..|p| - 4] + p[|p| - 4..]
  {
    hide DecodeWord;
    var n := |p|;
    assert p[|m| + 1..n - 8] == Zeros(n - |m| - 9);
    assert p == p[..|m|] + [p[|m|]] + p[|m| + 1..n - 8] + p[n - 8..n - 4] + p[n - 4..];
  }

  lemma SameWords(a: seq<Byte>, b: seq<Byte>, c: seq<Byte>, d: seq<Byte>)
    requires |a| == |b| == |c| == |d| == 4
    requires DecodeWord(a) + WORDS * DecodeWord(b) == DecodeWord(c) + WORDS * DecodeWord(d)
    ensures a == c && b == d
  {
    hide DecodeWord, EncodeWord;
    SameHalves(DecodeWord(a), DecodeWord(b), DecodeWord(c), DecodeWord(d));
    ByteRoundTrip(a);
    ByteRoundTrip(b);
    ByteRoundTrip(c);
    ByteRoundTrip(d);
  }

  lemma SameHalves(a: Word, b: Word, c: Word, d: Word)
    requires a + WORDS * b == c + WORDS * d
    ensures a == c && b == d
  {
  }

  // The bytes in whole blocks.
  function Whole(n: nat): (k: nat)
    ensures k <= n < k + 64 && k % 64 == 0 && n - k == n % 64
  {
    n / 64 * 64
  }

  function Tail(m: seq<Byte>): (t: seq<Byte>)
    ensures |t| == |m| % 64
  {
    m[Whole(|m|)..]
  }

  // What is folded already may be taken as the state to go on from.
  lemma {:induction false} FoldOn(f: BlockFunction, s: State, m: seq<Byte>, more: seq<Byte>)
    ensures Fold(f, s, m + more) == Fold(f, Fold(f, s, m), Tail(m) + more)
    decreases |m|
  {
    if |m| < 64 {
      assert Tail(m) == m;
    } else {
      assert (m + more)[..64] == m[..64];
      assert (m + more)[64..] == m[64..] + more;
      assert Tail(m[64..]) == Tail(m);
      FoldOn(f, f(s, m[..64]), m[64..], more);
    }
  }

  lemma FoldBlock(f: BlockFunction, s: State, block: seq<Byte>)
    requires |block| == 64
    ensures Fold(f, s, block) == f(s, block)
  {
    assert block[..64] == block;
  }

  lemma FoldBlockOn(f: BlockFunction, m: seq<Byte>, more: seq<Byte>)
    requires |m| % 64 + |more| == 64
    ensures Fold(f, INIT, m + more) == f(Fold(f, INIT, m), Tail(m) + more)
  {
    FoldOn(f, INIT, m, more);
    FoldBlock(f, Fold(f, INIT, m), Tail(m) + more);
  }

  lemma FoldTail(f: BlockFunction, m: seq<Byte>, more: seq<Byte>)
    requires |m| % 64 + |more| < 64
    ensures Fold(f, INIT, m + more) == Fold(f, INIT, m)
  {
    FoldOn(f, INIT, m, more);
  }

  // ---------- the count ----------

  // The two words hold 8n modulo 2^64.
  predicate Counts(low: Word, high: Word, n: nat) {
    low + WORDS * high == 8 * n % DOUBLE_WORDS
  }

  lemma CountsModulo(low: Word, high: Word, n: nat)
    ensures Counts(low, high, n) <==> low == 8 * n % WORDS && high == 8 * n / WORDS % WORDS
  {
    var q := 8 * n / WORDS;
    assert 8 * n == WORDS * q + 8 * n % WORDS;
    assert q == WORDS * (q / WORDS) + q % WORDS;
    assert 8 * n == DOUBLE_WORDS * (q / WORDS) + WORDS * (q % WORDS) + 8 * n % WORDS;
    assert 8 * n % DOUBLE_WORDS == WORDS * (q % WORDS) + 8 * n % WORDS;
  }

  // Bytes in the buffer, from the low word.
  lemma IndexOfCount(low: Word, high: Word, n: nat)
    requires Counts(low, high, n)
    ensures low / 8 % 64 == n % 64
  {
    CountsModulo(low, high, n);
    var q := 8 * n / WORDS;
    assert 8 * n == WORDS * q + low;
    assert n == 0x2000_0000 * q + low / 8;
    assert n % 64 == low / 8 % 64;
  }

  // The addition of update: the low word wraps and carries, the high word wraps.
  function AddLow(low: Word, length: nat): Word {
    (low + length * 8 % WORDS) % WORDS
  }

  function AddHigh(low: Word, high: Word, length: nat): Word {
    var carried := if AddLow(low, length) < length * 8 % WORDS then (high + 1) % WORDS else high;
    (carried + length / 0x2000_0000) % WORDS
  }

  lemma LowAdded(low: Word, length: nat)
    ensures var x := length * 8 % WORDS;
            low + x == AddLow(low, length) + WORDS * if AddLow(low, length) < x then 1 else 0
  {
  }

  lemma HighAdded(low: Word, high: Word, length: nat) returns (k: nat)
    ensures var carry := if AddLow(low, length) < length * 8 % WORDS then 1 else 0;
            high + carry + length / 0x2000_0000 == AddHigh(low, high, length) + WORDS * k
  {
    var carry := if AddLow(low, length) < length * 8 % WORDS then 1 else 0;
    k := (high + carry) / WORDS + ((high + carry) % WORDS + length / 0x2000_0000) / WORDS;
  }

  lemma CountAdded(low: Word, high: Word, n: nat, length: nat)
    requires Counts(low, high, n)
    ensures Counts(AddLow(low, length), AddHigh(low, high, length), n + length)
  {
    var low', high' := AddLow(low, length), AddHigh(low, high, length);
    LowAdded(low, length);
    var k := HighAdded(low, high, length);
    var j := 8 * n / DOUBLE_WORDS;
    hide AddLow, AddHigh;
    assert length * 8 == length * 8 % WORDS + WORDS * (length / 0x2000_0000);
    assert 8 * n == DOUBLE_WORDS * j + low + WORDS * high;
    Remainder(8 * (n + length), j + k, low' + WORDS * high');
  }

  lemma Remainder(a: nat, q: nat, r: nat)
    requires a == DOUBLE_WORDS * q + r && r < DOUBLE_WORDS
    ensures a % DOUBLE_WORDS == r
  {
  }

  // ---------- the buffer ----------

  // The 64 bytes after an update that found `index` of them in use.
  function BufferAfter(buffer: seq<Byte>, index: nat, input: seq<Byte>): (r: seq<Byte>)
    requires |buffer| == 64 && index < 64
    ensures |r| == 64
  {
    if index + |input| < 64 then buffer[..index] + input + buffer[index + |input|..]
    else
      var rest := (index + |input|) % 64;
      input[|input| - rest..] + (buffer[..index] + input[..64 - index])[rest..]
  }
}
