/** The part of WHATWG `URLSearchParams` the adapter uses on an esbuild path suffix:
    construction from a string, `has`, `get`, `set` and `toString`, the
    application/x-www-form-urlencoded parser and serializer of section 5 of the URL
    Standard. The parser turns `+` into a space; percent-escapes in the suffix are kept
    as written (see the README). */
module UrlQuery {
  import opened Wrappers
  import opened JsStrings
  import Utf8

  datatype Param = Param(name: string, value: string)

  /** The name-value list of a `URLSearchParams`, in order. */
  type Query = seq<Param>

  // ---------------------------------------------------------------------------
  // parsing

  /** A piece split at its first `=`; a piece without one has an empty value. */
  function SplitPair(p: string): (r: Param)
    ensures '=' !in p ==> r == Param(p, "")
    decreases |p|
  {
    if |p| == 0 then Param("", "")
    else if p[0] == '=' then Param("", p[1..])
    else
      var rest := SplitPair(p[1..]);
      assert '=' !in p ==> p == [p[0]] + p[1..];
      Param([p[0]] + rest.name, rest.value)
  }

  /** The pairs of the non-empty `&`-separated pieces, `+` read as a space. */
  function ParsePieces(pieces: seq<string>): (r: Query)
    ensures |r| <= |pieces|
    ensures forall i :: 0 <= i < |r| ==> '+' !in r[i].name && '+' !in r[i].value
    decreases |pieces|
  {
    if |pieces| == 0 then []
    else if pieces[0] == "" then ParsePieces(pieces[1..])
    else
      var p := SplitPair(pieces[0]);
      ReplaceCharRemoves(p.name, '+', ' ');
      ReplaceCharRemoves(p.value, '+', ' ');
      var rest := ParsePieces(pieces[1..]);
      var r := [Param(ReplaceChar(p.name, '+', ' '), ReplaceChar(p.value, '+', ' '))] + rest;
      assert forall i :: 1 <= i < |r| ==> r[i] == rest[i - 1];
      r
  }

  /** `new URLSearchParams(s)`: one leading `?` is dropped first. */
  function Parse(s: string): (r: Query)
    ensures forall i :: 0 <= i < |r| ==> '+' !in r[i].name && '+' !in r[i].value
  {
    var body := if |s| > 0 && s[0] == '?' then s[1..] else s;
    ParsePieces(Split(body, '&'))
  }

  // ---------------------------------------------------------------------------
  // lookup and update

  predicate Has(q: Query, name: string) {
    exists i :: 0 <= i < |q| && q[i].name == name
  }

  /** `get(name)`: the value of the first pair with that name. */
  function Get(q: Query, name: string): (r: Option<string>)
    ensures r.Some? <==> Has(q, name)
    ensures r.Some? ==> exists i :: 0 <= i < |q| && q[i].name == name && r.value == q[i].value
                                  && forall j :: 0 <= j < i ==> q[j].name != name
    decreases |q|
  {
    if |q| == 0 then None
    else if q[0].name == name then Some(q[0].value)
    else
      var r := Get(q[1..], name);
      assert Has(q[1..], name) ==> Has(q, name) by {
        if Has(q[1..], name) {
          var i :| 0 <= i < |q[1..]| && q[1..][i].name == name;
          assert q[i + 1].name == name;
        }
      }
      assert Has(q, name) ==> Has(q[1..], name) by {
        if Has(q, name) {
          var i :| 0 <= i < |q| && q[i].name == name;
          assert i > 0 && q[1..][i - 1].name == name;
        }
      }
      assert r.Some? ==> exists i :: 0 <= i < |q| && q[i].name == name && r.value == q[i].value
                                   && forall j :: 0 <= j < i ==> q[j].name != name by {
        if r.Some? {
          var i :| 0 <= i < |q[1..]| && q[1..][i].name == name && r.value == q[1..][i].value
                   && forall j :: 0 <= j < i ==> q[1..][j].name != name;
          assert forall j :: 1 <= j < i + 1 ==> q[j] == q[1..][j - 1];
          assert q[i + 1] == q[1..][i];
        }
      }
      r
  }

  /** The pairs whose name differs from `name`, in order. */
  function Remove(q: Query, name: string): (r: Query)
    ensures !Has(r, name)
    ensures |r| <= |q|
    decreases |q|
  {
    if |q| == 0 then []
    else if q[0].name == name then Remove(q[1..], name)
    else [q[0]] + Remove(q[1..], name)
  }

  /** `set(name, value)`: the first pair with that name takes the value and the others
      with that name go; with no such pair the new one is appended. */
  function Set(q: Query, name: string, value: string): (r: Query)
    ensures Has(r, name) && |r| <= |q| + 1
    ensures Has(q, name) ==> |r| <= |q|
    decreases |q|
  {
    if |q| == 0 then
      var r := [Param(name, value)];
      assert r[0].name == name;
      r
    else if q[0].name == name then
      var r := [Param(name, value)] + Remove(q[1..], name);
      assert r[0].name == name;
      r
    else
      var rest := Set(q[1..], name, value);
      var r := [q[0]] + rest;
      assert forall i :: 0 <= i < |rest| ==> r[i + 1] == rest[i];
      assert Has(q, name) ==> Has(q[1..], name) by {
        if Has(q, name) {
          var i :| 0 <= i < |q| && q[i].name == name;
          assert q[1..][i - 1].name == name;
        }
      }
      r
  }

  /** After `set`, `get` of that name returns the value set. */
  lemma {:induction false} GetSetSame(q: Query, name: string, value: string)
    ensures Get(Set(q, name, value), name) == Some(value)
    decreases |q|
  {
    if |q| > 0 && q[0].name != name {
      GetSetSame(q[1..], name, value);
      assert Set(q, name, value)[1..] == Set(q[1..], name, value);
    }
  }

  lemma {:induction false} GetRemoveOther(q: Query, name: string, other: string)
    requires other != name
    ensures Get(Remove(q, name), other) == Get(q, other)
    decreases |q|
  {
    if |q| > 0 {
      GetRemoveOther(q[1..], name, other);
      if q[0].name != name {
        assert Remove(q, name)[1..] == Remove(q[1..], name);
      }
    }
  }

  /** `set` leaves the value of every other name as it was. */
  lemma {:induction false} GetSetOther(q: Query, name: string, value: string, other: string)
    requires other != name
    ensures Get(Set(q, name, value), other) == Get(q, other)
    decreases |q|
  {
    if |q| > 0 {
      if q[0].name == name {
        GetRemoveOther(q[1..], name, other);
        assert Set(q, name, value)[1..] == Remove(q[1..], name);
      } else {
        GetSetOther(q[1..], name, value, other);
        assert Set(q, name, value)[1..] == Set(q[1..], name, value);
      }
    } else {
      assert Set(q, name, value)[1..] == [];
    }
  }

  lemma {:induction false} RemoveTwice(q: Query, name: string)
    ensures Remove(Remove(q, name), name) == Remove(q, name)
    decreases |q|
  {
    if |q| > 0 {
      RemoveTwice(q[1..], name);
      if q[0].name != name {
        assert Remove(q, name)[1..] == Remove(q[1..], name);
      }
    }
  }

  /** Apart from the pairs named `name`, `set` keeps every pair, in order. */
  lemma {:induction false} RemoveSet(q: Query, name: string, value: string)
    ensures Remove(Set(q, name, value), name) == Remove(q, name)
    decreases |q|
  {
    if |q| == 0 {
      assert Set(q, name, value)[1..] == [];
    } else if q[0].name == name {
      assert Set(q, name, value)[1..] == Remove(q[1..], name);
      RemoveTwice(q[1..], name);
    } else {
      assert Set(q, name, value)[1..] == Set(q[1..], name, value);
      RemoveSet(q[1..], name, value);
    }
  }

  // ---------------------------------------------------------------------------
  // serialization

  /** The bytes the urlencoded serializer writes as themselves: ASCII letters and digits,
      `*`, `-`, `.` and `_`. */
  predicate IsSafeByte(b: int) {
    0x30 <= b <= 0x39 || 0x41 <= b <= 0x5A || 0x61 <= b <= 0x7A
    || b == 0x2A || b == 0x2D || b == 0x2E || b == 0x5F
  }

  /** The characters the serializer can emit. */
  predicate IsEncodedChar(c: char) {
    IsSafeByte(c as int) || c == '+' || c == '%'
  }

  function HexUpper(n: int): (c: char)
    requires 0 <= n < 16
    ensures IsEncodedChar(c)
  {
    if n < 10 then ('0' as int + n) as char else ('A' as int + (n - 10)) as char
  }

  /** One byte as the serializer writes it: itself, `+` for a space, or `%XX`. */
  function EncodeByte(b: Utf8.byte): (r: string)
    ensures 1 <= |r|
    ensures forall i :: 0 <= i < |r| ==> IsEncodedChar(r[i])
  {
    if IsSafeByte(b) then [b as char]
    else if b == 0x20 then "+"
    else ['%', HexUpper(b / 16), HexUpper(b % 16)]
  }

  function EncodeBytes(bs: seq<Utf8.byte>): (r: string)
    ensures |bs| <= |r|
    ensures forall i :: 0 <= i < |r| ==> IsEncodedChar(r[i])
    decreases |bs|
  {
    if |bs| == 0 then "" else EncodeByte(bs[0]) + EncodeBytes(bs[1..])
  }

  /** The urlencoded form of a name or value: each character's UTF-8 bytes encoded. */
  function Encode(s: string): (r: string)
    ensures |s| <= |r|
    ensures forall i :: 0 <= i < |r| ==> IsEncodedChar(r[i])
    decreases |s|
  {
    if |s| == 0 then "" else EncodeBytes(Utf8.EncodeChar(s[0])) + Encode(s[1..])
  }

  /** A character that the serializer writes as itself. */
  predicate IsSafeChar(c: char) {
    IsSafeByte(c as int)
  }

  predicate IsSafeText(s: string) {
    forall i :: 0 <= i < |s| ==> IsSafeChar(s[i])
  }

  /** Text made of safe characters is its own encoding. */
  lemma {:induction false} EncodeSafe(s: string)
    requires IsSafeText(s)
    ensures Encode(s) == s
    decreases |s|
  {
    if |s| > 0 {
      assert Utf8.EncodeChar(s[0]) == [s[0] as int];
      assert EncodeBytes([s[0] as int]) == [s[0]];
      EncodeSafe(s[1..]);
      assert [s[0]] + s[1..] == s;
    }
  }

  function PairText(p: Param): string {
    Encode(p.name) + "=" + Encode(p.value)
  }

  /** `toString()`: every pair as `name=value`, joined with `&`. Since the encoder
      escapes `&`, splitting at `&` gives the pairs back one by one. */
  function Serialize(q: Query): (r: string)
    ensures q == [] ==> r == ""
    ensures q != [] ==> Split(r, '&') == seq(|q|, i requires 0 <= i < |q| => PairText(q[i]))
  {
    var pieces := seq(|q|, i requires 0 <= i < |q| => PairText(q[i]));
    SplitPieces(q, pieces);
    Join(pieces, "&")
  }

  lemma SplitPieces(q: Query, pieces: seq<string>)
    requires pieces == seq(|q|, i requires 0 <= i < |q| => PairText(q[i]))
    ensures q != [] ==> Split(Join(pieces, "&"), '&') == pieces
  {
    if q != [] {
      forall i | 0 <= i < |pieces|
        ensures '&' !in pieces[i]
      {
        EncodedFree(q[i].name);
        EncodedFree(q[i].value);
      }
      SplitJoin(pieces, '&');
    }
  }

  /** `s.replaceAll(/=(?=&|$)/g, '')`: every `=` directly followed by `&` or by the end
      of the text is dropped. */
  function StripEmptyEq(s: string): (r: string)
    ensures |r| <= |s|
    decreases |s|
  {
    if |s| == 0 then ""
    else if s[0] == '=' && (|s| == 1 || s[1] == '&') then StripEmptyEq(s[1..])
    else [s[0]] + StripEmptyEq(s[1..])
  }

  /** The text a pair leaves after `StripEmptyEq`: `name` alone when the value is empty. */
  function CompactPairText(p: Param): string {
    if p.value == "" then Encode(p.name) else PairText(p)
  }

  /** The independent description of the stripped serialization: pairs with an empty
      value written as the bare name. */
  function SerializeCompact(q: Query): string {
    Join(seq(|q|, i requires 0 <= i < |q| => CompactPairText(q[i])), "&")
  }

  /** Stripping works on each side of an `&` on its own. */
  lemma {:induction false} StripAroundAmp(x: string, y: string)
    ensures StripEmptyEq(x + "&" + y) == StripEmptyEq(x) + "&" + StripEmptyEq(y)
    decreases |x|
  {
    var s := x + "&" + y;
    if |x| == 0 {
      assert s == "&" + y;
      assert s[1..] == y;
    } else {
      assert s[0] == x[0];
      assert s[1..] == x[1..] + "&" + y;
      StripAroundAmp(x[1..], y);
      if |x| == 1 {
        assert s[1] == '&';
      } else {
        assert s[1] == x[1];
      }
    }
  }

  /** Text without `=` is left alone. */
  lemma {:induction false} StripFree(s: string)
    requires '=' !in s
    ensures StripEmptyEq(s) == s
    decreases |s|
  {
    if |s| > 0 {
      StripFree(s[1..]);
      assert [s[0]] + s[1..] == s;
    }
  }

  /** One serialized pair after stripping. */
  lemma {:induction false} StripPair(a: string, b: string)
    requires '=' !in a && '=' !in b && (|b| == 0 || b[0] != '&')
    ensures StripEmptyEq(a + "=" + b) == if b == "" then a else a + "=" + b
    decreases |a|
  {
    var s := a + "=" + b;
    if |a| == 0 {
      assert s == "=" + b;
      assert s[1..] == b;
      StripFree(b);
    } else {
      assert s[0] == a[0];
      assert s[1..] == a[1..] + "=" + b;
      StripPair(a[1..], b);
      assert [a[0]] + a[1..] == a;
      assert [a[0]] + (a[1..] + "=" + b) == a + "=" + b;
    }
  }

  lemma EncodedFree(s: string)
    ensures '=' !in Encode(s) && '&' !in Encode(s)
    ensures |Encode(s)| == 0 <==> |s| == 0
  {
    var e := Encode(s);
    assert forall i :: 0 <= i < |e| ==> e[i] != '=' && e[i] != '&';
  }

  lemma StripPairText(p: Param)
    ensures StripEmptyEq(PairText(p)) == CompactPairText(p)
  {
    EncodedFree(p.name);
    EncodedFree(p.value);
    StripPair(Encode(p.name), Encode(p.value));
  }

  lemma {:induction false} StripJoin(q: Query)
    ensures StripEmptyEq(Serialize(q)) == SerializeCompact(q)
    decreases |q|
  {
    var full := seq(|q|, i requires 0 <= i < |q| => PairText(q[i]));
    var compact := seq(|q|, i requires 0 <= i < |q| => CompactPairText(q[i]));
    if |q| == 1 {
      StripPairText(q[0]);
    } else if |q| > 1 {
      var rest := q[1..];
      StripJoin(rest);
      assert full[1..] == seq(|rest|, i requires 0 <= i < |rest| => PairText(rest[i]));
      assert compact[1..] == seq(|rest|, i requires 0 <= i < |rest| => CompactPairText(rest[i]));
      StripPairText(q[0]);
      StripAroundAmp(PairText(q[0]), Join(full[1..], "&"));
    }
  }

  /** The stripped serialization is the compact one: `StripEmptyEq` drops exactly the
      `=` of the pairs whose value is empty, because encoded names and values hold
      neither `=` nor `&`. */
  lemma StripSerialize(q: Query)
    ensures StripEmptyEq(Serialize(q)) == SerializeCompact(q)
  {
    StripJoin(q);
  }

  // ---------------------------------------------------------------------------
  // round trip

  predicate IsSafeQuery(q: Query) {
    forall i :: 0 <= i < |q| ==> IsSafeText(q[i].name) && IsSafeText(q[i].value)
  }

  lemma {:induction false} SplitPairAt(a: string, b: string)
    requires '=' !in a
    ensures SplitPair(a + "=" + b) == Param(a, b)
    decreases |a|
  {
    var s := a + "=" + b;
    if |a| == 0 {
      assert s[1..] == b;
    } else {
      assert s[1..] == a[1..] + "=" + b;
      SplitPairAt(a[1..], b);
      assert [a[0]] + a[1..] == a;
    }
  }

  lemma ReplaceAbsent(s: string)
    requires IsSafeText(s)
    ensures ReplaceChar(s, '+', ' ') == s
  {
  }

  /** A non-empty piece that splits into a parameter of safe text parses to it. */
  lemma ParsePiecesCons(piece: string, p: Param, pieces: seq<string>)
    requires piece != "" && SplitPair(piece) == p
    requires IsSafeText(p.name) && IsSafeText(p.value)
    ensures ParsePieces([piece] + pieces) == [p] + ParsePieces(pieces)
  {
    ReplaceAbsent(p.name);
    ReplaceAbsent(p.value);
    assert ([piece] + pieces)[1..] == pieces;
  }

  lemma SplitSafePair(p: Param)
    requires IsSafeText(p.name) && IsSafeText(p.value)
    ensures PairText(p) != "" && SplitPair(PairText(p)) == p
  {
    EncodeSafe(p.name);
    EncodeSafe(p.value);
    assert '=' !in p.name by {
      assert forall i :: 0 <= i < |p.name| ==> IsSafeChar(p.name[i]);
    }
    SplitPairAt(p.name, p.value);
  }

  lemma {:induction false} ParsePiecesSafe(q: Query)
    requires IsSafeQuery(q)
    ensures ParsePieces(seq(|q|, i requires 0 <= i < |q| => PairText(q[i]))) == q
    decreases |q|
  {
    var pieces := seq(|q|, i requires 0 <= i < |q| => PairText(q[i]));
    if |q| > 0 {
      var rest := q[1..];
      var tail := seq(|rest|, i requires 0 <= i < |rest| => PairText(rest[i]));
      assert pieces == [PairText(q[0])] + tail;
      SplitSafePair(q[0]);
      ParsePiecesCons(PairText(q[0]), q[0], tail);
      ParsePiecesSafe(rest);
      assert [q[0]] + rest == q;
    }
  }

  /** Parsing a serialization of names and values made of safe characters gives the
      same list back. */
  lemma ParseSerialize(q: Query)
    requires IsSafeQuery(q)
    ensures Parse(Serialize(q)) == q
  {
    var pieces := seq(|q|, i requires 0 <= i < |q| => PairText(q[i]));
    if |q| > 0 {
      assert Serialize(q)[0] != '?' by {
        EncodedFree(q[0].name);
        if |Encode(q[0].name)| > 0 {
          assert Serialize(q)[0] == pieces[0][0] == Encode(q[0].name)[0];
        } else {
          assert Serialize(q)[0] == pieces[0][0] == '=';
        }
      }
      ParsePiecesSafe(q);
    }
  }

  predicate NamesNonEmpty(q: Query) {
    forall i :: 0 <= i < |q| ==> q[i].name != ""
  }

  lemma SplitCompactPair(p: Param)
    requires IsSafeText(p.name) && IsSafeText(p.value) && p.name != ""
    ensures CompactPairText(p) != ""
    ensures SplitPair(CompactPairText(p)) == p
  {
    EncodeSafe(p.name);
    EncodeSafe(p.value);
    assert '=' !in p.name by {
      assert forall i :: 0 <= i < |p.name| ==> IsSafeChar(p.name[i]);
    }
    if p.value != "" {
      SplitPairAt(p.name, p.value);
    }
  }

  lemma {:induction false} ParsePiecesCompact(q: Query)
    requires IsSafeQuery(q) && NamesNonEmpty(q)
    ensures ParsePieces(seq(|q|, i requires 0 <= i < |q| => CompactPairText(q[i]))) == q
    decreases |q|
  {
    var pieces := seq(|q|, i requires 0 <= i < |q| => CompactPairText(q[i]));
    if |q| > 0 {
      var rest := q[1..];
      var tail := seq(|rest|, i requires 0 <= i < |rest| => CompactPairText(rest[i]));
      assert pieces == [CompactPairText(q[0])] + tail;
      SplitCompactPair(q[0]);
      ParsePiecesCons(CompactPairText(q[0]), q[0], tail);
      ParsePiecesCompact(rest);
      assert [q[0]] + rest == q;
    }
  }

  /** The compact serialization, behind a `?`, parses back to the same list when names
      and values are made of safe characters and no name is empty (an empty name with
      an empty value would leave an empty piece, which the parser skips). */
  lemma ParseSerializeCompact(q: Query)
    requires IsSafeQuery(q) && NamesNonEmpty(q)
    ensures Parse("?" + SerializeCompact(q)) == q
  {
    var pieces := seq(|q|, i requires 0 <= i < |q| => CompactPairText(q[i]));
    var t := "?" + SerializeCompact(q);
    assert t[1..] == SerializeCompact(q);
    if |q| == 0 {
      assert SerializeCompact(q) == "";
    } else {
      forall i | 0 <= i < |pieces|
        ensures '&' !in pieces[i]
      {
        EncodedFree(q[i].name);
        EncodedFree(q[i].value);
      }
      SplitJoin(pieces, '&');
      ParsePiecesCompact(q);
    }
  }
}
