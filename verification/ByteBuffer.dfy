// The byte buffer of the network library: one array with room to prepend, read and append.
module ByteBuffer {
  import opened Basics

  const CHEAP_PREPEND: nat := 8
  const INITIAL_SIZE: nat := 1024
  const EXTRA: nat := 65536

  // ---------- integers in network order ----------

  function Power(width: nat): (p: nat)
    ensures p >= 1
  {
    if width == 0 then 1 else 256 * Power(width - 1)
  }

  function BigEndian(width: nat, x: nat): (r: seq<Byte>)
    ensures |r| == width
  {
    if width == 0 then [] else BigEndian(width - 1, x / 256) + [x % 256]
  }

  function FromBigEndian(b: seq<Byte>): (x: nat)
  {
    if b == [] then 0 else 256 * FromBigEndian(b[..|b| - 1]) + (b[|b| - 1] as int)
  }

  // Two's complement.
  function Pattern(width: nat, x: int): nat
    requires 0 <= x + Power(width)
  {
    if x < 0 then x + Power(width) else x
  }

  function Signed(width: nat, pattern: nat): int {
    if 2 * pattern < Power(width) then pattern else pattern - Power(width)
  }

  predicate InRange(width: nat, x: int) {
    0 <= 2 * x + Power(width) && 2 * x < Power(width)
  }

  lemma {:induction false} BigEndianRoundTrip(width: nat, x: nat)
    requires x < Power(width)
    ensures FromBigEndian(BigEndian(width, x)) == x
  {
    if width > 0 {
      BigEndianRoundTrip(width - 1, x / 256);
      assert BigEndian(width, x)[..width - 1] == BigEndian(width - 1, x / 256);
    }
  }

  lemma {:induction false} FromBigEndianRoundTrip(b: seq<Byte>)
    ensures FromBigEndian(b) < Power(|b|) && BigEndian(|b|, FromBigEndian(b)) == b
  {
    if b != [] {
      FromBigEndianRoundTrip(b[..|b| - 1]);
    }
  }

  function EncodeInt(width: nat, x: int): (r: seq<Byte>)
    requires InRange(width, x)
    ensures |r| == width
  {
    BigEndian(width, Pattern(width, x))
  }

  function DecodeInt(b: seq<Byte>): int {
    Signed(|b|, FromBigEndian(b))
  }

  // What is written as an integer of some width is read back.
  lemma IntRoundTrip(width: nat, x: int)
    requires InRange(width, x)
    ensures DecodeInt(EncodeInt(width, x)) == x
  {
    BigEndianRoundTrip(width, Pattern(width, x));
  }

  // ---------- the buffer ----------

  class Buffer {
    var buffer: array<Byte>
    var readerIndex: nat
    var writerIndex: nat

    ghost predicate Valid()
      reads this
    {
      readerIndex <= writerIndex <= buffer.Length && CHEAP_PREPEND <= buffer.Length
    }

    ghost function Contents(): (c: seq<Byte>)
      requires Valid()
      reads this, buffer
      ensures |c| == writerIndex - readerIndex
    {
      buffer[readerIndex..writerIndex]
    }

    constructor (initialSize: nat)
      ensures Valid() && Contents() == [] && fresh(buffer)
      ensures buffer.Length == CHEAP_PREPEND + initialSize && readerIndex == CHEAP_PREPEND
    {
      buffer := new Byte[CHEAP_PREPEND + initialSize](_ => 0);
      readerIndex, writerIndex := CHEAP_PREPEND, CHEAP_PREPEND;
    }

    function ReadableBytes(): nat
      requires Valid()
      reads this
    {
      writerIndex - readerIndex
    }

    function WritableBytes(): nat
      requires Valid()
      reads this
    {
      buffer.Length - writerIndex
    }

    method RetrieveAll()
      requires Valid()
      modifies this`readerIndex, this`writerIndex
      ensures Valid() && Contents() == [] && readerIndex == CHEAP_PREPEND
    {
      readerIndex, writerIndex := CHEAP_PREPEND, CHEAP_PREPEND;
    }

    method Retrieve(len: nat)
      requires Valid() && len <= ReadableBytes()
      modifies this`readerIndex, this`writerIndex
      ensures Valid() && Contents() == old(Contents())[len..]
    {
      if len < ReadableBytes() {
        readerIndex := readerIndex + len;
      } else {
        RetrieveAll();
      }
    }

    method RetrieveAsString(len: nat) returns (result: seq<Byte>)
      requires Valid() && len <= ReadableBytes()
      modifies this`readerIndex, this`writerIndex
      ensures Valid() && old(Contents()) == result + Contents() && |result| == len
    {
      result := buffer[readerIndex..readerIndex + len];
      Retrieve(len);
    }

    // Moves the readable bytes to the front, one by one from the first.
    method Compact()
      requires Valid() && CHEAP_PREPEND < readerIndex
      modifies this`readerIndex, this`writerIndex, buffer
      ensures Valid() && Contents() == old(Contents())
      ensures readerIndex == CHEAP_PREPEND
    {
      var readable, from := ReadableBytes(), readerIndex;
      ghost var was := buffer[..];
      var k := 0;
      while k < readable
        invariant k <= readable && readerIndex == from && writerIndex == from + readable && buffer == old(buffer)
        invariant buffer[CHEAP_PREPEND..CHEAP_PREPEND + k] == was[from..from + k]
        invariant forall j :: from + k <= j < buffer.Length ==> buffer[j] == was[j]
      {
        buffer[CHEAP_PREPEND + k] := buffer[from + k];
        k := k + 1;
      }
      readerIndex := CHEAP_PREPEND;
      writerIndex := readerIndex + readable;
    }

    // buffer_.resize: a larger array that starts with the old bytes
    method Resize(size: nat)
      requires Valid() && buffer.Length <= size
      modifies this`buffer
      ensures Valid() && fresh(buffer) && buffer.Length == size
      ensures buffer[..old(buffer.Length)] == old(buffer[..])
      ensures Contents() == old(Contents())
    {
      var larger := new Byte[size](_ => 0);
      var length := buffer.Length;
      var k := 0;
      while k < length
        invariant k <= length
        invariant buffer == old(buffer) && buffer[..] == old(buffer[..]) && fresh(larger)
        invariant forall j :: 0 <= j < k ==> larger[j] == buffer[j]
      {
        larger[k] := buffer[k];
        k := k + 1;
      }
      buffer := larger;
    }

    method MakeSpace(len: nat)
      requires Valid() && WritableBytes() < len
      modifies this, buffer
      ensures Valid() && Contents() == old(Contents()) && WritableBytes() >= len
      ensures fresh(buffer) || buffer == old(buffer)
      ensures buffer == old(buffer) <==> old(WritableBytes() + readerIndex) >= len + CHEAP_PREPEND
      ensures readerIndex == if buffer == old(buffer) then CHEAP_PREPEND else old(readerIndex)
      ensures old(buffer.Length) <= buffer.Length
    {
      if WritableBytes() + readerIndex < len + CHEAP_PREPEND {
        Resize(writerIndex + len);
      } else {
        assert CHEAP_PREPEND < readerIndex;
        Compact();
      }
    }

    method EnsureWritableBytes(len: nat)
      requires Valid()
      modifies this, buffer
      ensures Valid() && Contents() == old(Contents()) && WritableBytes() >= len
      ensures fresh(buffer) || buffer == old(buffer)
      ensures old(buffer.Length) <= buffer.Length
      ensures readerIndex == old(readerIndex) || readerIndex == CHEAP_PREPEND
      ensures old(WritableBytes()) >= len ==>
                buffer == old(buffer) && readerIndex == old(readerIndex) && writerIndex == old(writerIndex)
    {
      if WritableBytes() < len {
        MakeSpace(len);
      }
    }

    // Writes at an index without moving the readers' or writers' index.
    method Put(at: nat, data: seq<Byte>)
      requires at + |data| <= buffer.Length
      modifies buffer
      ensures buffer[at..at + |data|] == data
      ensures forall j :: 0 <= j < buffer.Length && !(at <= j < at + |data|) ==> buffer[j] == old(buffer[j])
    {
      var k := 0;
      while k < |data|
        invariant k <= |data|
        invariant forall j :: 0 <= j < k ==> buffer[at + j] == data[j]
        invariant forall j :: 0 <= j < buffer.Length && !(at <= j < at + k) ==> buffer[j] == old(buffer[j])
      {
        buffer[at + k] := data[k];
        k := k + 1;
      }
    }

    method HasWritten(len: nat)
      requires Valid() && len <= WritableBytes()
      modifies this`writerIndex
      ensures Valid() && Contents() == old(Contents()) + old(buffer[writerIndex..writerIndex + len])
    {
      writerIndex := writerIndex + len;
    }

    method Append(data: seq<Byte>)
      requires Valid()
      modifies this, buffer
      ensures Valid() && Contents() == old(Contents()) + data
      ensures fresh(buffer) || buffer == old(buffer)
      ensures old(buffer.Length) <= buffer.Length
      ensures old(WritableBytes()) >= |data| ==> buffer == old(buffer) && readerIndex == old(readerIndex)
    {
      EnsureWritableBytes(|data|);
      Put(writerIndex, data);
      HasWritten(|data|);
    }

    method Unwrite(len: nat)
      requires Valid() && len <= ReadableBytes()
      modifies this`writerIndex
      ensures Valid() && Contents() == old(Contents())[..old(ReadableBytes()) - len]
    {
      writerIndex := writerIndex - len;
      assert buffer[readerIndex..writerIndex] == old(buffer[readerIndex..writerIndex])[..writerIndex - readerIndex];
    }

    method Prepend(data: seq<Byte>)
      requires Valid() && |data| <= readerIndex
      modifies this`readerIndex, buffer
      ensures Valid() && Contents() == data + old(Contents())
    {
      readerIndex := readerIndex - |data|;
      Put(readerIndex, data);
      assert buffer[readerIndex + |data|..writerIndex] == old(Contents());
      assert Contents() == buffer[readerIndex..readerIndex + |data|] + buffer[readerIndex + |data|..writerIndex];
    }

    // The buffer takes the array of a fresh one that holds the same bytes.
    method Shrink(reserve: nat)
      requires Valid()
      modifies this
      ensures Valid() && Contents() == old(Contents()) && fresh(buffer)
      ensures WritableBytes() >= reserve && readerIndex == CHEAP_PREPEND
    {
      var other := new Buffer(INITIAL_SIZE);
      other.EnsureWritableBytes(ReadableBytes() + reserve);
      other.Append(buffer[readerIndex..writerIndex]);
      buffer, readerIndex, writerIndex := other.buffer, other.readerIndex, other.writerIndex;
    }

    /**
     readv into the writable part and, when that is shorter than 65536 bytes, a second segment of 65536.
     `incoming` is what the descriptor has: None for an error.
     */
    method ReadFd(incoming: Option<seq<Byte>>) returns (n: int)
      requires Valid()
      modifies this, buffer
      ensures Valid() && (n == -1 <==> incoming.None?)
      ensures n >= 0 ==>
                && n == Min(|incoming.value|, old(WritableBytes()) + if old(WritableBytes()) < EXTRA then EXTRA else 0)
                && Contents() == old(Contents()) + incoming.value[..n]
      ensures n < 0 ==> Contents() == old(Contents())
    {
      if incoming.None? {
        return -1;
      }
      var writable := WritableBytes();
      var room := writable + if writable < EXTRA then EXTRA else 0;
      var data := incoming.value[..Min(|incoming.value|, room)];
      n := |data|;
      if n <= writable {
        Put(writerIndex, data);
        writerIndex := writerIndex + n;
        assert Contents() == old(Contents()) + data;
      } else {
        Put(writerIndex, data[..writable]);
        writerIndex := buffer.Length;
        assert Contents() == old(Contents()) + data[..writable];
        Append(data[writable..]);
        assert data == data[..writable] + data[writable..];
      }
    }

    method AppendInt(width: nat, x: int)
      requires Valid() && InRange(width, x)
      modifies this, buffer
      ensures Valid() && Contents() == old(Contents()) + EncodeInt(width, x)
    {
      Append(EncodeInt(width, x));
    }

    method PrependInt(width: nat, x: int)
      requires Valid() && InRange(width, x) && width <= readerIndex
      modifies this`readerIndex, buffer
      ensures Valid() && Contents() == EncodeInt(width, x) + old(Contents())
    {
      Prepend(EncodeInt(width, x));
    }

    method PeekInt(width: nat) returns (x: int)
      requires Valid() && width <= ReadableBytes()
      ensures x == DecodeInt(Contents()[..width])
    {
      var bytes := buffer[readerIndex..readerIndex + width];
      assert bytes == Contents()[..width];
      x := DecodeInt(bytes);
    }

    // The integer at the front is taken off.
    method ReadInt(width: nat) returns (x: int)
      requires Valid() && width <= ReadableBytes()
      modifies this`readerIndex, this`writerIndex
      ensures Valid() && x == DecodeInt(old(Contents())[..width]) && Contents() == old(Contents())[width..]
      ensures forall y, rest :: InRange(width, y) && old(Contents()) == EncodeInt(width, y) + rest ==>
                                  x == y && Contents() == rest
    {
      x := PeekInt(width);
      Retrieve(width);
      forall y, rest | InRange(width, y) && old(Contents()) == EncodeInt(width, y) + rest
        ensures x == y && Contents() == rest
      {
        IntRoundTrip(width, y);
        assert old(Contents())[..width] == EncodeInt(width, y);
      }
    }
  }

  function Min(a: nat, b: nat): nat {
    if a < b then a else b
  }
}
