/** Base64 with the standard alphabet and `=` padding, section 4 of RFC 4648: what
    Node's `Buffer.prototype.toString('base64')` produces. */
module Base64 {
  import opened Wrappers
  import Utf8

  type byte = Utf8.byte

  /** The character for a six-bit value (Table 1 of RFC 4648). */
  function Alphabet(i: int): (c: char)
    requires 0 <= i < 64
  {
    if i < 26 then ('A' as int + i) as char
    else if i < 52 then ('a' as int + (i - 26)) as char
    else if i < 62 then ('0' as int + (i - 52)) as char
    else if i == 62 then '+'
    else '/'
  }

  /** The six-bit value of an alphabet character. */
  function IndexOf(c: char): (r: Option<int>)
    ensures r.Some? ==> 0 <= r.value < 64 && Alphabet(r.value) == c
  {
    if 'A' <= c <= 'Z' then Some(c as int - 'A' as int)
    else if 'a' <= c <= 'z' then Some(c as int - 'a' as int + 26)
    else if '0' <= c <= '9' then Some(c as int - '0' as int + 52)
    else if c == '+' then Some(62)
    else if c == '/' then Some(63)
    else None
  }

  lemma IndexOfAlphabet(i: int)
    requires 0 <= i < 64
    ensures IndexOf(Alphabet(i)) == Some(i)
  {
  }

  /** Every character `Encode` emits is an alphabet character or the pad `=`. */
  predicate IsBase64Char(c: char) {
    IndexOf(c).Some? || c == '='
  }

  /** The four characters of three bytes. */
  function Group3(b0: byte, b1: byte, b2: byte): string {
    [ Alphabet(b0 / 4), Alphabet((b0 % 4) * 16 + b1 / 16)
    , Alphabet((b1 % 16) * 4 + b2 / 64), Alphabet(b2 % 64) ]
  }

  /** The four characters of a final two bytes: one pad. */
  function Group2(b0: byte, b1: byte): string {
    [Alphabet(b0 / 4), Alphabet((b0 % 4) * 16 + b1 / 16), Alphabet((b1 % 16) * 4), '=']
  }

  /** The four characters of a final byte: two pads. */
  function Group1(b0: byte): string {
    [Alphabet(b0 / 4), Alphabet((b0 % 4) * 16), '=', '=']
  }

  /** The encoding of `b`: four characters per three bytes, the last group padded. */
  function Encode(b: seq<byte>): (r: string)
    ensures |r| == 4 * ((|b| + 2) / 3)
    ensures forall i :: 0 <= i < |r| ==> IsBase64Char(r[i])
    decreases |b|
  {
    if |b| == 0 then ""
    else if |b| == 1 then Group1(b[0])
    else if |b| == 2 then Group2(b[0], b[1])
    else Group3(b[0], b[1], b[2]) + Encode(b[3..])
  }

  /** Encoding distributes over concatenation when the first part is whole groups. */
  lemma {:induction false} EncodeAppend(a: seq<byte>, b: seq<byte>)
    requires |a| % 3 == 0
    ensures Encode(a + b) == Encode(a) + Encode(b)
    decreases |a|
  {
    if |a| == 0 {
      assert a + b == b;
    } else {
      assert (a + b)[..3] == a[..3];
      assert (a + b)[3..] == a[3..] + b;
      EncodeAppend(a[3..], b);
    }
  }

  /** The bytes of one group of four characters; `last` admits padding. */
  function DecodeGroup(q: string, last: bool): Option<seq<byte>>
    requires |q| == 4
  {
    var i0 := IndexOf(q[0]);
    var i1 := IndexOf(q[1]);
    var i2 := IndexOf(q[2]);
    var i3 := IndexOf(q[3]);
    if i0.None? || i1.None? then None
    else if last && q[2] == '=' && q[3] == '=' then
      Some([i0.value * 4 + i1.value / 16])
    else if i2.None? then None
    else if last && q[3] == '=' then
      Some([i0.value * 4 + i1.value / 16, (i1.value % 16) * 16 + i2.value / 4])
    else if i3.None? then None
    else
      Some([ i0.value * 4 + i1.value / 16, (i1.value % 16) * 16 + i2.value / 4
           , (i2.value % 4) * 64 + i3.value ])
  }

  /** The bytes a padded Base64 text stands for, if it is one. */
  function Decode(s: string): Option<seq<byte>>
    decreases |s|
  {
    if |s| == 0 then Some([])
    else if |s| < 4 then None
    else
      match DecodeGroup(s[..4], |s| == 4)
      case None => None
      case Some(g) =>
        match Decode(s[4..])
        case None => None
        case Some(rest) => Some(g + rest)
  }

  /** The arithmetic of one full group: splitting three bytes into four six-bit values
      and joining them again gives the bytes back. */
  lemma GroupArithmetic(b0: byte, b1: byte, b2: byte)
    ensures (b0 / 4) * 4 + ((b0 % 4) * 16 + b1 / 16) / 16 == b0
    ensures (((b0 % 4) * 16 + b1 / 16) % 16) * 16 + ((b1 % 16) * 4 + b2 / 64) / 4 == b1
    ensures (((b1 % 16) * 4 + b2 / 64) % 4) * 64 + b2 % 64 == b2
  {
    assert ((b0 % 4) * 16 + b1 / 16) / 16 == b0 % 4;
    assert ((b0 % 4) * 16 + b1 / 16) % 16 == b1 / 16;
    assert ((b1 % 16) * 4 + b2 / 64) / 4 == b1 % 16;
    assert ((b1 % 16) * 4 + b2 / 64) % 4 == b2 / 64;
  }

  /** Decoding four alphabet characters combines their six-bit values. */
  lemma DecodeGroupValues(i0: int, i1: int, i2: int, i3: int, last: bool)
    requires 0 <= i0 < 64 && 0 <= i1 < 64 && 0 <= i2 < 64 && 0 <= i3 < 64
    requires 0 <= i0 * 4 + i1 / 16 < 256
    requires 0 <= (i1 % 16) * 16 + i2 / 4 < 256
    requires 0 <= (i2 % 4) * 64 + i3 < 256
    ensures DecodeGroup([Alphabet(i0), Alphabet(i1), Alphabet(i2), Alphabet(i3)], last)
         == Some([i0 * 4 + i1 / 16, (i1 % 16) * 16 + i2 / 4, (i2 % 4) * 64 + i3])
  {
    IndexOfAlphabet(i0);
    IndexOfAlphabet(i1);
    IndexOfAlphabet(i2);
    IndexOfAlphabet(i3);
  }

  lemma DecodeGroup3(b0: byte, b1: byte, b2: byte, last: bool)
    ensures DecodeGroup(Group3(b0, b1, b2), last) == Some([b0, b1, b2])
  {
    var i0, i1 := b0 / 4, (b0 % 4) * 16 + b1 / 16;
    var i2, i3 := (b1 % 16) * 4 + b2 / 64, b2 % 64;
    GroupArithmetic(b0, b1, b2);
    DecodeGroupValues(i0, i1, i2, i3, last);
  }

  lemma DecodeGroup2(b0: byte, b1: byte)
    ensures DecodeGroup(Group2(b0, b1), true) == Some([b0, b1])
  {
    var i0, i1, i2 := b0 / 4, (b0 % 4) * 16 + b1 / 16, (b1 % 16) * 4;
    GroupArithmetic(b0, b1, 0);
    assert i2 / 4 == b1 % 16;
    IndexOfAlphabet(i0);
    IndexOfAlphabet(i1);
    IndexOfAlphabet(i2);
  }

  lemma DecodeGroup1(b0: byte)
    ensures DecodeGroup(Group1(b0), true) == Some([b0])
  {
    GroupArithmetic(b0, 0, 0);
    IndexOfAlphabet(b0 / 4);
    IndexOfAlphabet((b0 % 4) * 16);
  }

  /** Decoding a text made of one group and a decodable rest. */
  lemma DecodeCons(q: string, rest: string, g: seq<byte>, tail: seq<byte>)
    requires |q| == 4
    requires DecodeGroup(q, |rest| == 0) == Some(g)
    requires Decode(rest) == Some(tail)
    ensures Decode(q + rest) == Some(g + tail)
  {
    assert (q + rest)[..4] == q;
    assert (q + rest)[4..] == rest;
  }

  /** A one-byte input encodes to one group with two pads. */
  lemma DecodeEncodeOne(b: seq<byte>)
    requires |b| == 1
    ensures Decode(Encode(b)) == Some(b)
  {
    DecodeGroup1(b[0]);
    assert Encode(b) == Group1(b[0]);
    DecodeCons(Group1(b[0]), "", [b[0]], []);
    assert Group1(b[0]) + "" == Encode(b);
    assert [b[0]] + [] == b;
  }

  /** A two-byte input encodes to one group with one pad. */
  lemma DecodeEncodeTwo(b: seq<byte>)
    requires |b| == 2
    ensures Decode(Encode(b)) == Some(b)
  {
    DecodeGroup2(b[0], b[1]);
    assert Encode(b) == Group2(b[0], b[1]);
    DecodeCons(Group2(b[0], b[1]), "", [b[0], b[1]], []);
    assert Group2(b[0], b[1]) + "" == Encode(b);
    assert [b[0], b[1]] + [] == b;
  }

  /** Base64 decoding inverts Base64 encoding. */
  lemma {:induction false} DecodeEncode(b: seq<byte>)
    ensures Decode(Encode(b)) == Some(b)
    decreases |b|
  {
    if |b| == 1 {
      DecodeEncodeOne(b);
    } else if |b| == 2 {
      DecodeEncodeTwo(b);
    } else if |b| >= 3 {
      DecodeEncode(b[3..]);
      DecodeEncodeGroup(b[0], b[1], b[2], b[3..]);
      assert Encode(b) == Group3(b[0], b[1], b[2]) + Encode(b[3..]);
      assert [b[0], b[1], b[2]] + b[3..] == b;
    }
  }

  /** One step of the induction: a whole first group in front of a rest that decodes. */
  lemma DecodeEncodeGroup(b0: byte, b1: byte, b2: byte, tail: seq<byte>)
    requires Decode(Encode(tail)) == Some(tail)
    ensures Decode(Group3(b0, b1, b2) + Encode(tail)) == Some([b0, b1, b2] + tail)
  {
    var rest := Encode(tail);
    DecodeGroup3(b0, b1, b2, |rest| == 0);
    DecodeCons(Group3(b0, b1, b2), rest, [b0, b1, b2], tail);
  }
}
