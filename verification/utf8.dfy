/** UTF-8 (RFC 3629) over Unicode scalar values: what `Buffer.from(s)` produces for a
    string whose code units form no lone surrogate. */
module Utf8 {
  import opened Wrappers

  type byte = x: int | 0 <= x < 256

  /** The one to four bytes of one scalar value. */
  function EncodeChar(c: char): (r: seq<byte>)
    ensures 1 <= |r| <= 4
    ensures |r| == 1 <==> (c as int) < 0x80
    ensures (c as int) < 0x80 ==> r == [c as int]
    ensures forall i :: 1 <= i < |r| ==> 0x80 <= r[i] < 0xC0
  {
    var n := c as int;
    if n < 0x80 then [n]
    else if n < 0x800 then [0xC0 + n / 64, 0x80 + n % 64]
    else if n < 0x10000 then [0xE0 + n / 4096, 0x80 + (n / 64) % 64, 0x80 + n % 64]
    else [0xF0 + n / 262144, 0x80 + (n / 4096) % 64, 0x80 + (n / 64) % 64, 0x80 + n % 64]
  }

  /** The UTF-8 bytes of a string. */
  function Encode(s: string): (r: seq<byte>)
    ensures |s| <= |r| <= 4 * |s|
    decreases |s|
  {
    if |s| == 0 then [] else EncodeChar(s[0]) + Encode(s[1..])
  }

  /** Encoding distributes over concatenation. */
  lemma {:induction false} EncodeAppend(a: string, b: string)
    ensures Encode(a + b) == Encode(a) + Encode(b)
    decreases |a|
  {
    if |a| == 0 {
      assert a + b == b;
    } else {
      assert (a + b)[0] == a[0];
      assert (a + b)[1..] == a[1..] + b;
      EncodeAppend(a[1..], b);
    }
  }

  /** A string of ASCII characters encodes to its own code points, one byte each. */
  lemma {:induction false} EncodeAscii(s: string)
    requires forall i :: 0 <= i < |s| ==> (s[i] as int) < 0x80
    ensures |Encode(s)| == |s|
    ensures forall i :: 0 <= i < |s| ==> Encode(s)[i] == s[i] as int
    decreases |s|
  {
    if |s| > 0 {
      EncodeAscii(s[1..]);
    }
  }

  /** How many bytes a sequence led by `b` holds; 0 for a byte that cannot lead. */
  function SequenceLength(b: byte): nat {
    if b < 0x80 then 1
    else if 0xC0 <= b < 0xE0 then 2
    else if 0xE0 <= b < 0xF0 then 3
    else if 0xF0 <= b < 0xF8 then 4
    else 0
  }

  predicate IsScalar(n: int) {
    (0 <= n < 0xD800) || (0xE000 <= n < 0x110000)
  }

  /** The scalar value of one well-formed, shortest-form sequence, if it is one. */
  function DecodeSequence(q: seq<byte>): Option<char>
    requires 1 <= |q| <= 4
  {
    if exists i :: 1 <= i < |q| && !(0x80 <= q[i] < 0xC0) then None
    else
      var n: int :=
        if |q| == 1 then q[0] as int
        else if |q| == 2 then (q[0] as int - 0xC0) * 64 + (q[1] as int - 0x80)
        else if |q| == 3 then (q[0] as int - 0xE0) * 4096 + (q[1] as int - 0x80) * 64 + (q[2] as int - 0x80)
        else (q[0] as int - 0xF0) * 262144 + (q[1] as int - 0x80) * 4096 + (q[2] as int - 0x80) * 64 + (q[3] as int - 0x80);
      var least := if |q| == 1 then 0 else if |q| == 2 then 0x80 else if |q| == 3 then 0x800 else 0x10000;
      if least <= n && IsScalar(n) then Some(n as char) else None
  }

  /** The string whose UTF-8 bytes are `b`, if `b` is well-formed. */
  function Decode(b: seq<byte>): Option<string>
    decreases |b|
  {
    if |b| == 0 then Some("")
    else
      var n := SequenceLength(b[0]);
      if n == 0 || |b| < n then None
      else
        match DecodeSequence(b[..n])
        case None => None
        case Some(c) =>
          match Decode(b[n..])
          case None => None
          case Some(rest) => Some([c] + rest)
  }

  /** Each scalar value's bytes decode back to it. */
  lemma DecodeEncodeChar(c: char)
    ensures SequenceLength(EncodeChar(c)[0]) == |EncodeChar(c)|
    ensures DecodeSequence(EncodeChar(c)) == Some(c)
  {
    var n := c as int;
    var q := EncodeChar(c);
    if n < 0x80 {
    } else if n < 0x800 {
      assert (n / 64) * 64 + n % 64 == n;
    } else if n < 0x10000 {
      assert ((n / 64) / 64) * 64 + (n / 64) % 64 == n / 64;
      assert n / 4096 == (n / 64) / 64;
      assert (n / 4096) * 4096 + ((n / 64) % 64) * 64 + n % 64 == n;
    } else {
      assert n / 262144 == ((n / 4096) / 64);
      assert ((n / 4096) / 64) * 64 + (n / 4096) % 64 == n / 4096;
      assert n / 4096 == (n / 64) / 64;
      assert ((n / 64) / 64) * 64 + (n / 64) % 64 == n / 64;
      assert (n / 262144) * 262144 + ((n / 4096) % 64) * 4096 + ((n / 64) % 64) * 64 + n % 64 == n;
    }
  }

  /** UTF-8 decoding inverts UTF-8 encoding. */
  lemma {:induction false} DecodeEncode(s: string)
    ensures Decode(Encode(s)) == Some(s)
    decreases |s|
  {
    if |s| > 0 {
      var q := EncodeChar(s[0]);
      var b := Encode(s);
      DecodeEncodeChar(s[0]);
      assert b[..|q|] == q;
      assert b[|q|..] == Encode(s[1..]);
      DecodeEncode(s[1..]);
      assert [s[0]] + s[1..] == s;
    }
  }
}
