// Base64: the encoder with its wrapping accumulator, and the groups of section 4 of RFC 4648.
module Base64 {
  import opened Basics

  const LOOKUP: string :=
    "ABCDEFGHIJKLM" + "NOPQRSTUVWXYZ" + "abcdefghijklm" + "nopqrstuvwxyz" + "0123456789+/"

  // ---------- the definition ----------

  type Sextet = v: int | 0 <= v < 64

  function Letter(v: Sextet): char {
    if v < 26 then ('A' as int + v) as char
    else if v < 52 then ('a' as int + (v - 26)) as char
    else if v < 62 then ('0' as int + (v - 52)) as char
    else if v == 62 then '+' else '/'
  }

  function ValueOf(c: char): Sextet {
    if 'A' <= c <= 'Z' then c as int - 'A' as int
    else if 'a' <= c <= 'z' then c as int - 'a' as int + 26
    else if '0' <= c <= '9' then c as int - '0' as int + 52
    else if c == '+' then 62 else 63
  }

  lemma LetterRoundTrip(v: Sextet)
    ensures ValueOf(Letter(v)) == v && Letter(v) != '='
  {
  }

  // Three bytes make four letters; one or two bytes at the end are filled with zero bits and padded.
  function Groups(m: seq<Byte>): string {
    if m == [] then ""
    else if |m| == 1 then [Letter(m[0] / 4), Letter(m[0] % 4 * 16), '=', '=']
    else if |m| == 2 then [Letter(m[0] / 4), Letter(m[0] % 4 * 16 + m[1] / 16), Letter(m[1] % 16 * 4), '=']
    else
      [Letter(m[0] / 4), Letter(m[0] % 4 * 16 + m[1] / 16), Letter(m[1] % 16 * 4 + m[2] / 64), Letter(m[2] % 64)]
      + Groups(m[3..])
  }

  function Decode(s: string): seq<Byte> {
    if |s| < 4 then []
    else
      var a, b, c, d := ValueOf(s[0]), ValueOf(s[1]), ValueOf(s[2]), ValueOf(s[3]);
      if s[2] == '=' then [a * 4 + b / 16]
      else if s[3] == '=' then [a * 4 + b / 16, b % 16 * 16 + c / 4]
      else [a * 4 + b / 16, b % 16 * 16 + c / 4, c % 4 * 64 + d] + Decode(s[4..])
  }

  lemma BytesFromSextets(a: Byte, b: Byte, c: Byte)
    ensures a / 4 * 4 + (a % 4 * 16 + b / 16) / 16 == a
    ensures (a % 4 * 16 + b / 16) % 16 * 16 + (b % 16 * 4 + c / 64) / 4 == b
    ensures (b % 16 * 4 + c / 64) % 4 * 64 + c % 64 == c
  {
  }

  lemma GroupDecoded(m: seq<Byte>)
    requires |m| >= 3
    ensures |Groups(m)| >= 4 && Groups(m)[4..] == Groups(m[3..])
    ensures m == [m[0], m[1], m[2]] + m[3..]
  {
    hide Letter;
  }

  lemma GroupRead(a: Byte, b: Byte, c: Byte)
    ensures var w, x, y, z := ValueOf(Letter(a / 4)), ValueOf(Letter(a % 4 * 16 + b / 16)),
                              ValueOf(Letter(b % 16 * 4 + c / 64)), ValueOf(Letter(c % 64));
            w * 4 + x / 16 == a && x % 16 * 16 + y / 4 == b && y % 4 * 64 + z == c
    ensures Letter(b % 16 * 4 + c / 64) != '=' && Letter(c % 64) != '='
  {
    BytesFromSextets(a, b, c);
    LetterRoundTrip(a / 4);
    LetterRoundTrip(a % 4 * 16 + b / 16);
    LetterRoundTrip(b % 16 * 4 + c / 64);
    LetterRoundTrip(c % 64);
    hide Letter, ValueOf;
  }

  // Decoding the groups gives back the bytes.
  lemma {:induction false} RoundTrip(m: seq<Byte>)
    ensures Decode(Groups(m)) == m
    decreases |m|
  {
    hide Letter, ValueOf;
    if |m| >= 3 {
      GroupRead(m[0], m[1], m[2]);
      RoundTrip(m[3..]);
      GroupDecoded(m);
    } else if |m| == 2 {
      GroupRead(m[0], m[1], 0);
    } else if |m| == 1 {
      GroupRead(m[0], 0, 0);
    }
  }

  lemma {:induction false} GroupsJoin(front: seq<Byte>, more: seq<Byte>)
    requires |front| % 3 == 0
    ensures Groups(front + more) == Groups(front) + Groups(more)
    decreases |front|
  {
    if front == [] {
      assert front + more == more;
    } else {
      assert (front + more)[3..] == front[3..] + more;
      GroupsJoin(front[3..], more);
    }
  }

  lemma {:induction false} GroupsLength(m: seq<Byte>)
    ensures |Groups(m)| % 4 == 0
    decreases |m|
  {
    if |m| >= 3 {
      GroupsLength(m[3..]);
    }
  }

  // ---------- the encoder ----------

  // The letters that are out after all whole groups, for the bytes that remain.
  function Pending(rest: seq<Byte>): string
    requires |rest| < 3
  {
    if |rest| == 0 then "" else if |rest| == 1 then [Letter(rest[0] / 4)]
    else [Letter(rest[0] / 4), Letter(rest[0] % 4 * 16 + rest[1] / 16)]
  }

  // The bits of the accumulator from `shift` on, six of them.
  function Bits(val: int, shift: nat): Sextet
    requires 0 <= val < 0x1_0000_0000 && shift <= 6
  {
    val / [1, 2, 4, 8, 16, 32, 64][shift] % 64
  }

  function Shifted(val: int, c: Byte): (r: int)
    requires 0 <= val < 0x1_0000_0000
    ensures 0 <= r < 0x1_0000_0000
  {
    (val * 256 + c) % 0x1_0000_0000
  }

  lemma LowBits(t: int, u: nat)
    requires u < 65536 && 0 <= 65536 * t + u < 0x1_0000_0000
    ensures Bits(65536 * t + u, 0) == u % 64
    ensures Bits(65536 * t + u, 2) == u / 4 % 64
    ensures Bits(65536 * t + u, 4) == u / 16 % 64
    ensures Bits(65536 * t + u, 6) == u / 64 % 64
  {
    LowZero(t, u);
    LowTwo(t, u);
    LowFour(t, u);
    LowSix(t, u);
  }

  // A multiple of 65536 does not show in the six bits.
  lemma LowZero(t: int, u: nat)
    requires 0 <= 65536 * t + u
    ensures (65536 * t + u) % 64 == u % 64
  {
    assert 65536 * t + u == 64 * (1024 * t) + u;
  }

  lemma LowTwo(t: int, u: nat)
    requires 0 <= 65536 * t + u
    ensures (65536 * t + u) / 4 % 64 == u / 4 % 64
  {
    assert (65536 * t + u) / 4 == 64 * (256 * t) + u / 4;
  }

  lemma LowFour(t: int, u: nat)
    requires 0 <= 65536 * t + u
    ensures (65536 * t + u) / 16 % 64 == u / 16 % 64
  {
    assert (65536 * t + u) / 16 == 64 * (64 * t) + u / 16;
  }

  lemma LowSix(t: int, u: nat)
    requires 0 <= 65536 * t + u
    ensures (65536 * t + u) / 64 % 64 == u / 64 % 64
  {
    assert (65536 * t + u) / 64 == 64 * (16 * t) + u / 64;
  }

  lemma ShiftedParts(val: int, c: Byte) returns (t: int)
    requires 0 <= val < 0x1_0000_0000
    ensures Shifted(val, c) == 65536 * t + (val % 256 * 256 + c)
  {
    t := val / 256 - 65536 * ((val * 256 + c) / 0x1_0000_0000);
  }

  lemma LowByte(t: int, l: Byte, c: Byte)
    ensures (65536 * t + (l * 256 + c)) % 256 == c
    ensures (l * 256 + c) % 64 == c % 64
  {
    assert 65536 * t + (l * 256 + c) == 256 * (256 * t + l) + c;
    assert l * 256 + c == 64 * (4 * l) + c;
  }

  lemma BitsOfTwo(l: Byte, c: Byte)
    ensures (l * 256 + c) / 4 % 64 == c / 4
  {
    assert (l * 256 + c) / 4 == 64 * l + c / 4;
  }

  lemma BitsOfFour(l: Byte, c: Byte)
    ensures (l * 256 + c) / 16 % 64 == l % 4 * 16 + c / 16
  {
    assert (l * 256 + c) / 16 == 64 * (l / 4) + (l % 4 * 16 + c / 16);
  }

  lemma BitsOfSix(l: Byte, c: Byte)
    ensures (l * 256 + c) / 64 % 64 == l % 16 * 4 + c / 64
  {
    assert (l * 256 + c) / 64 == 64 * (l / 16) + (l % 16 * 4 + c / 64);
  }

  // Only the last byte of the accumulator matters to what comes next.
  lemma ShiftedBits(val: int, c: Byte)
    requires 0 <= val < 0x1_0000_0000
    ensures Shifted(val, c) % 256 == c
    ensures Bits(Shifted(val, c), 2) == c / 4
    ensures Bits(Shifted(val, c), 4) == val % 256 % 4 * 16 + c / 16
    ensures Bits(Shifted(val, c), 6) == val % 256 % 16 * 4 + c / 64
    ensures Bits(Shifted(val, c), 0) == c % 64
  {
    var l: Byte := val % 256;
    var t := ShiftedParts(val, c);
    hide Shifted, Bits;
    LowBits(t, l * 256 + c);
    LowByte(t, l, c);
    BitsOfTwo(l, c);
    BitsOfFour(l, c);
    BitsOfSix(l, c);
  }

  lemma LookupIsLetter(v: Sextet)
    ensures |LOOKUP| == 64 && LOOKUP[v] == Letter(v)
  {
  }

  // The text after one more byte, when it is the first or second of its group.
  lemma ByteWithin(m: seq<Byte>, k: nat, val: int)
    requires k < |m| && 0 <= val < 0x1_0000_0000 && (k % 3 > 0 ==> val % 256 == m[k - 1]) && k % 3 < 2
    ensures var r, whole := k % 3, k - k % 3;
            Pending(m[whole..k]) + [Letter(Bits(Shifted(val, m[k]), 2 + 2 * r))] == Pending(m[whole..k + 1])
  {
    ShiftedBits(val, m[k]);
    hide Bits, Shifted, Letter;
  }

  // The text after the last byte of a group.
  lemma GroupDone(m: seq<Byte>, k: nat, val: int)
    requires k < |m| && 0 <= val < 0x1_0000_0000 && k % 3 == 2 && val % 256 == m[k - 1]
    ensures Groups(m[..k - 2]) + Pending(m[k - 2..k])
            + [Letter(Bits(Shifted(val, m[k]), 6))] + [Letter(Bits(Shifted(val, m[k]), 0))] == Groups(m[..k + 1])
  {
    ShiftedBits(val, m[k]);
    var group := m[k - 2..k + 1];
    assert m[..k + 1] == m[..k - 2] + group;
    GroupsJoin(m[..k - 2], group);
    var sixth, last := Letter(Bits(Shifted(val, m[k]), 6)), Letter(Bits(Shifted(val, m[k]), 0));
    WholeGroup(group, sixth, last);
    assert group[..2] == m[k - 2..k];
    hide Groups, Pending, Bits, Shifted, Letter;
    var front, pending := Groups(m[..k - 2]), Pending(m[k - 2..k]);
    assert front + pending + [sixth] + [last] == front + (pending + [sixth] + [last]);
  }

  lemma WholeGroup(group: seq<Byte>, sixth: char, last: char)
    requires |group| == 3 && sixth == Letter(group[1] % 16 * 4 + group[2] / 64) && last == Letter(group[2] % 64)
    ensures Groups(group) == Pending(group[..2]) + [sixth] + [last]
  {
    assert Groups(group[3..]) == "";
    hide Letter;
  }

  // The letter for the bits that are left, when one or two bytes are.
  lemma LastLetter(val: int, b: Byte, r: nat)
    requires 0 <= val < 0x1_0000_0000 && val % 256 == b && 1 <= r <= 2
    ensures Bits(Shifted(val, 0), 2 + 2 * r) == if r == 1 then b % 4 * 16 else b % 16 * 4
  {
    ShiftedBits(val, 0);
    hide Bits, Shifted;
  }

  lemma LastGroup(front: seq<Byte>, rest: seq<Byte>, c: char)
    requires |front| % 3 == 0 && 1 <= |rest| <= 2
    requires c == Letter(if |rest| == 1 then rest[0] % 4 * 16 else rest[1] % 16 * 4)
    ensures Groups(front + rest) == Groups(front) + Pending(rest) + [c] + if |rest| == 1 then "==" else "="
  {
    GroupsJoin(front, rest);
    PartGroup(rest, c);
    hide Groups, Pending, Letter;
    var pads := if |rest| == 1 then "==" else "=";
    Regroup(Groups(front), Pending(rest), [c], pads);
  }

  lemma Regroup(a: string, b: string, c: string, d: string)
    ensures a + (b + c + d) == a + b + c + d
  {
  }

  lemma PartGroup(rest: seq<Byte>, c: char)
    requires |rest| == 1 ==> c == Letter(rest[0] % 4 * 16)
    requires |rest| == 2 ==> c == Letter(rest[1] % 16 * 4)
    requires 1 <= |rest| <= 2
    ensures Groups(rest) == Pending(rest) + [c] + if |rest| == 1 then "==" else "="
  {
    hide Letter;
  }

  // The letters that one more byte brings out.
  method EncodeByte(val: int, start: int) returns (letters: string, valb: int)
    requires 0 <= val < 0x1_0000_0000 && start in {2, 4, 6}
    ensures letters == [Letter(Bits(val, start))] + if start == 6 then [Letter(Bits(val, 0))] else []
    ensures valb == if start == 6 then -6 else start - 6
  {
    letters, valb := "", start;
    while valb >= 0
      invariant || (valb == start && letters == "")
                || (valb == start - 6 && letters == [Letter(Bits(val, start))])
                || (valb == -6 && start == 6 && letters == [Letter(Bits(val, 6))] + [Letter(Bits(val, 0))])
      decreases valb + 6
    {
      LookupIsLetter(Bits(val, valb));
      letters := letters + [LOOKUP[Bits(val, valb)]];
      valb := valb - 6;
    }
  }

  method Base64Encode(m: seq<Byte>) returns (out: string)
    ensures out == Groups(m)
  {
    hide Groups, Pending, Bits, Shifted, Letter;
    out := "";
    var val, valb := 0, -6;
    var k := 0;
    NothingYet(m);
    while k < |m|
      invariant k <= |m| && 0 <= val < 0x1_0000_0000 && valb == 2 * (k % 3) - 6
      invariant k % 3 > 0 ==> val % 256 == m[k - 1]
      invariant out == Groups(m[..k - k % 3]) + Pending(m[k - k % 3..k])
    {
      ShiftedBits(val, m[k]);
      if k % 3 == 2 {
        GroupDone(m, k, val);
        NothingPending(m, k + 1);
      } else {
        ByteWithin(m, k, val);
      }
      val := Shifted(val, m[k]);
      var letters;
      letters, valb := EncodeByte(val, valb + 8);
      out := out + letters;
      k := k + 1;
    }
    out := Ended(m, val, valb, out, k % 3);
  }

  // The letter for the bits that are left over, and the padding; r bytes are in no whole group.
  method Ended(m: seq<Byte>, val: int, valb: int, text: string, ghost r: nat) returns (out: string)
    requires r < 3 && r <= |m| && (|m| - r) % 3 == 0 && valb == 2 * r - 6
    requires 0 <= val < 0x1_0000_0000 && (r > 0 ==> val % 256 == m[|m| - 1])
    requires text == Groups(m[..|m| - r]) + Pending(m[|m| - r..|m|])
    ensures out == Groups(m)
  {
    hide Groups, Pending, Bits, Shifted, Letter;
    GroupsLength(m);
    if valb > -6 {
      LastPart(m, val, r, text);
      LookupIsLetter(Bits(Shifted(val, 0), valb + 8));
      out := Padded(text + [LOOKUP[Bits(Shifted(val, 0), valb + 8)]]);
    } else {
      WholeGroups(m, text);
      out := Padded(text);
    }
  }

  lemma WholeGroups(m: seq<Byte>, text: string)
    requires text == Groups(m[..|m|]) + Pending(m[|m|..|m|])
    ensures text == Groups(m)
  {
    assert m[..|m|] == m && m[|m|..|m|] == [];
    assert Pending([]) == "";
    hide Groups;
  }

  lemma FrontAndRest(m: seq<Byte>, r: nat)
    requires r <= |m|
    ensures m[..|m| - r] + m[|m| - r..] == m && m[|m| - r..|m|] == m[|m| - r..]
  {
  }

  lemma LastPart(m: seq<Byte>, val: int, r: nat, text: string)
    requires 1 <= r <= 2 && r <= |m| && (|m| - r) % 3 == 0
    requires 0 <= val < 0x1_0000_0000 && val % 256 == m[|m| - 1]
    requires text == Groups(m[..|m| - r]) + Pending(m[|m| - r..|m|])
    ensures Groups(m) == text + [Letter(Bits(Shifted(val, 0), 2 + 2 * r))] + if r == 1 then "==" else "="
  {
    hide Groups, Pending, Bits, Shifted, Letter;
    var front, rest := m[..|m| - r], m[|m| - r..];
    FrontAndRest(m, r);
    LastLetter(val, m[|m| - 1], r);
    LastGroup(front, rest, Letter(Bits(Shifted(val, 0), 2 + 2 * r)));
  }

  method Padded(text: string) returns (out: string)
    ensures out == text + match |text| % 4 { case 0 => "" case 1 => "===" case 2 => "==" case _ => "=" }
  {
    out := text;
    var n := 0;
    while |out| % 4 != 0
      invariant n <= 3 && out == text + "==="[..n] && n <= (4 - |text| % 4) % 4
      decreases 3 - n
    {
      assert "==="[..n + 1] == "==="[..n] + "=";
      out := out + "=";
      n := n + 1;
    }
  }

  lemma NothingYet(m: seq<Byte>)
    ensures Groups(m[..0]) == "" && Pending(m[0..0]) == ""
  {
  }

  lemma NothingPending(m: seq<Byte>, k: nat)
    requires k <= |m| && k % 3 == 0
    ensures Groups(m[..k]) + Pending(m[k - k % 3..k]) == Groups(m[..k])
    ensures k == |m| ==> m[..k] == m
  {
  }

  lemma KnownEnds()
    ensures Groups([0x66]) == "Zg==" && Groups([0x66, 0x6f]) == "Zm8="
  {
  }

  lemma KnownGroups()
    ensures Groups([0x66, 0x6f, 0x6f]) == "Zm9v" && Groups([0x62, 0x61, 0x72]) == "YmFy"
  {
    assert [0x62, 0x61, 0x72][3..] == [] && [0x66, 0x6f, 0x6f][3..] == [];
  }

  lemma KnownSymbols()
    ensures Groups([0xfb, 0xff, 0x00]) == "+/8A"
  {
    assert [0xfb, 0xff, 0x00][3..] == [];
  }

  lemma KnownPair()
    requires Groups([0x66, 0x6f, 0x6f]) == "Zm9v" && Groups([0x62, 0x61, 0x72]) == "YmFy"
    ensures Groups([0x66, 0x6f, 0x6f, 0x62, 0x61, 0x72]) == "Zm9vYmFy"
  {
    hide Groups;
    GroupsJoin([0x66, 0x6f, 0x6f], [0x62, 0x61, 0x72]);
    assert [0x66, 0x6f, 0x6f] + [0x62, 0x61, 0x72] == [0x66, 0x6f, 0x6f, 0x62, 0x61, 0x72];
    assert "Zm9v" + "YmFy" == "Zm9vYmFy";
  }

  // The examples of section 10 of RFC 4648, and the last two letters of the alphabet.
  lemma KnownAnswers()
    ensures Groups([0x66]) == "Zg==" && Groups([0x66, 0x6f]) == "Zm8=" && Groups([0x66, 0x6f, 0x6f]) == "Zm9v"
    ensures Groups([0x66, 0x6f, 0x6f, 0x62, 0x61, 0x72]) == "Zm9vYmFy"
    ensures Groups([0xfb, 0xff, 0x00]) == "+/8A"
  {
    hide Groups;
    KnownEnds();
    KnownGroups();
    KnownSymbols();
    KnownPair();
  }
}
