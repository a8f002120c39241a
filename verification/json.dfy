/** `JSON.stringify` applied to a string (section 25.5.2.3, QuoteJSONString, of ECMA-262),
    which the adapter uses to write import specifiers and to quote paths in warnings, and
    the matching part of `JSON.parse` that reads such a literal back. */
module Json {
  import opened Wrappers

  /** The lower-case hexadecimal digit of a value below 16. */
  function HexDigit(n: int): (c: char)
    requires 0 <= n < 16
  {
    if n < 10 then ('0' as int + n) as char else ('a' as int + (n - 10)) as char
  }

  /** The value of a hexadecimal digit of either case. */
  function HexValue(c: char): (r: Option<int>)
    ensures r.Some? ==> 0 <= r.value < 16
  {
    if '0' <= c <= '9' then Some(c as int - '0' as int)
    else if 'a' <= c <= 'f' then Some(c as int - 'a' as int + 10)
    else if 'A' <= c <= 'F' then Some(c as int - 'A' as int + 10)
    else None
  }

  lemma HexValueOfDigit(n: int)
    requires 0 <= n < 16
    ensures HexValue(HexDigit(n)) == Some(n)
  {
  }

  /** The letter of a two-character escape (`\"`, `\\`, `\b`, `\f`, `\n`, `\r`, `\t`). */
  function ShortEscape(c: char): Option<char> {
    if c == '"' then Some('"')
    else if c == '\\' then Some('\\')
    else if c == '\U{0008}' then Some('b')
    else if c == '\U{000C}' then Some('f')
    else if c == '\n' then Some('n')
    else if c == '\r' then Some('r')
    else if c == '\t' then Some('t')
    else None
  }

  /** The character a two-character escape letter stands for. */
  function ShortUnescape(e: char): Option<char> {
    if e == '"' then Some('"')
    else if e == '\\' then Some('\\')
    else if e == 'b' then Some('\U{0008}')
    else if e == 'f' then Some('\U{000C}')
    else if e == 'n' then Some('\n')
    else if e == 'r' then Some('\r')
    else if e == 't' then Some('\t')
    else None
  }

  /** How one character appears inside the quotes: a two-character escape, a `\u00xx`
      escape for the other control characters, or the character itself. */
  function EscapeChar(c: char): (r: string)
    ensures 1 <= |r|
    ensures r == [c] <==> ShortEscape(c).None? && c >= ' '
    ensures r != [c] ==> r[0] == '\\'
  {
    match ShortEscape(c)
    case Some(e) => ['\\', e]
    case None =>
      if c < ' ' then ['\\', 'u', '0', '0', HexDigit(c as int / 16), HexDigit(c as int % 16)]
      else [c]
  }

  /** The escaped body of `s`, one character after the other. */
  function Escape(s: string): (r: string)
    ensures |s| <= |r|
    decreases |s|
  {
    if |s| == 0 then "" else EscapeChar(s[0]) + Escape(s[1..])
  }

  /** `JSON.stringify(s)`. */
  function Quote(s: string): (r: string)
    ensures 2 <= |r| && r[0] == '"' && r[|r| - 1] == '"'
  {
    "\"" + Escape(s) + "\""
  }

  /** The value of four hexadecimal digits. */
  function Hex4(q: string): (r: Option<int>)
    requires |q| == 4
    ensures r.Some? ==> 0 <= r.value < 0x10000
  {
    match (HexValue(q[0]), HexValue(q[1]), HexValue(q[2]), HexValue(q[3]))
    case (Some(a), Some(b), Some(c), Some(d)) => Some(((a * 16 + b) * 16 + c) * 16 + d)
    case _ => None
  }

  function Prepend(c: char, rest: Option<string>): Option<string> {
    if rest.Some? then Some([c] + rest.value) else None
  }

  /** The characters an escaped body stands for; `None` for text `JSON.parse` rejects
      (a raw quote or control character, a bad escape). A `\u` escape of a surrogate,
      which only a surrogate pair could complete, is rejected too: the model's strings
      hold scalar values. */
  function Unescape(s: string): (r: Option<string>)
    decreases |s|
  {
    if |s| == 0 then Some("")
    else if s[0] == '\\' then
      if |s| < 2 then None
      else match ShortUnescape(s[1])
        case Some(c) => Prepend(c, Unescape(s[2..]))
        case None =>
          if s[1] != 'u' || |s| < 6 then None
          else match Hex4(s[2..6])
            case Some(v) =>
              if 0xD800 <= v < 0xE000 then None else Prepend(v as char, Unescape(s[6..]))
            case None => None
    else if s[0] == '"' || s[0] < ' ' then None
    else Prepend(s[0], Unescape(s[1..]))
  }

  /** `JSON.parse` of a string literal. */
  function Unquote(q: string): Option<string> {
    if |q| < 2 || q[0] != '"' || q[|q| - 1] != '"' then None
    else Unescape(q[1..|q| - 1])
  }

  lemma UnescapeShort(c: char, rest: string)
    requires ShortEscape(c).Some?
    ensures Unescape(EscapeChar(c) + rest) == Prepend(c, Unescape(rest))
  {
    var s := EscapeChar(c) + rest;
    assert s[0] == '\\' && s[1] == ShortEscape(c).value;
    assert ShortUnescape(s[1]) == Some(c);
    assert s[2..] == rest;
  }

  lemma UnescapeControl(c: char, rest: string)
    requires ShortEscape(c).None? && c < ' '
    ensures Unescape(EscapeChar(c) + rest) == Prepend(c, Unescape(rest))
  {
    var n := c as int;
    var s := EscapeChar(c) + rest;
    HexValueOfDigit(n / 16);
    HexValueOfDigit(n % 16);
    assert s[0] == '\\' && s[1] == 'u' && |s| >= 6;
    assert s[2..6] == ['0', '0', HexDigit(n / 16), HexDigit(n % 16)];
    assert (n / 16) * 16 + n % 16 == n;
    assert Hex4(s[2..6]) == Some(n);
    assert s[6..] == rest;
  }

  lemma UnescapePlain(c: char, rest: string)
    requires ShortEscape(c).None? && c >= ' '
    ensures Unescape(EscapeChar(c) + rest) == Prepend(c, Unescape(rest))
  {
    var s := EscapeChar(c) + rest;
    assert s[0] == c && s[1..] == rest;
  }

  lemma UnescapeChar(c: char, rest: string)
    ensures Unescape(EscapeChar(c) + rest) == Prepend(c, Unescape(rest))
  {
    if ShortEscape(c).Some? {
      UnescapeShort(c, rest);
    } else if c < ' ' {
      UnescapeControl(c, rest);
    } else {
      UnescapePlain(c, rest);
    }
  }

  /** Reading back an escaped body gives the original characters. */
  lemma {:induction false} UnescapeEscape(s: string)
    ensures Unescape(Escape(s)) == Some(s)
    decreases |s|
  {
    if |s| > 0 {
      UnescapeChar(s[0], Escape(s[1..]));
      UnescapeEscape(s[1..]);
      assert [s[0]] + s[1..] == s;
    }
  }

  /** `JSON.parse(JSON.stringify(s)) === s`. */
  lemma UnquoteQuote(s: string)
    ensures Unquote(Quote(s)) == Some(s)
  {
    var q := Quote(s);
    assert q[1..|q| - 1] == Escape(s);
    UnescapeEscape(s);
  }

  /** Distinct strings have distinct quotations. */
  lemma QuoteInjective(a: string, b: string)
    requires Quote(a) == Quote(b)
    ensures a == b
  {
    UnquoteQuote(a);
    UnquoteQuote(b);
  }
}
