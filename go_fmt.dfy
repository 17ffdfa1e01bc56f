/**
 * The two `fmt` verbs the decoder's messages use: `%d` on an integer and
 * `%q` on a string (Go's `strconv.Quote`). Each comes with a reader that
 * takes the text back, so that a message's interpolated parts are shown to
 * be recoverable from the message.
 */
module GoFmt {
  import opened Wrappers

  // ---------------------------------------------------------------- %d

  function DigitChar(d: nat): (c: char)
    requires d < 10
    ensures '0' <= c <= '9'
  {
    ('0' as int + d) as char
  }

  function DigitValue(c: char): (d: nat)
    requires '0' <= c <= '9'
    ensures d < 10
  {
    c as int - '0' as int
  }

  /** The decimal digits of `n`, most significant first, without leading zeros. */
  function NatDigits(n: nat): (s: string)
    ensures |s| > 0
    ensures forall i :: 0 <= i < |s| ==> '0' <= s[i] <= '9'
    ensures n > 0 ==> s[0] != '0'
    ensures n == 0 ==> s == "0"
  {
    if n < 10 then [DigitChar(n)] else NatDigits(n / 10) + [DigitChar(n % 10)]
  }

  /** `fmt.Sprintf("%d", n)`: the decimal text of `n`, with a leading '-' when it is negative. */
  function FormatInt(n: int): (s: string)
    ensures |s| > 0
    ensures (s[0] == '-') <==> n < 0
    ensures forall i :: (if n < 0 then 1 else 0) <= i < |s| ==> '0' <= s[i] <= '9'
    ensures n < 0 ==> |s| > 1 && s[1] != '0'
    ensures n > 0 ==> s[0] != '0'
    ensures n == 0 ==> s == "0"
  {
    if n < 0 then "-" + NatDigits(-n) else NatDigits(n)
  }

  /** Reads a non-empty run of decimal digits; `None` for anything else. */
  function ParseNat(s: string): (r: Option<nat>)
    ensures r.Some? ==> |s| > 0
  {
    if |s| == 0 || !('0' <= s[|s| - 1] <= '9') then None
    else if |s| == 1 then Some(DigitValue(s[0]))
    else
      match ParseNat(s[..|s| - 1])
      case None => None
      case Some(m) => Some(10 * m + DigitValue(s[|s| - 1]))
  }

  /** Reads an optionally negative decimal integer, the inverse of `FormatInt`. */
  function ParseInt(s: string): Option<int>
  {
    if |s| > 0 && s[0] == '-' then
      match ParseNat(s[1..])
      case None => None
      case Some(m) => Some(-(m as int))
    else
      match ParseNat(s)
      case None => None
      case Some(m) => Some(m as int)
  }

  lemma {:induction false} ParseNatDigits(n: nat)
    ensures ParseNat(NatDigits(n)) == Some(n)
  {
    if n >= 10 {
      var s := NatDigits(n);
      assert s[..|s| - 1] == NatDigits(n / 10);
      ParseNatDigits(n / 10);
    }
  }

  /** `%d` loses nothing: the integer is read back from its text. */
  lemma FormatIntRoundTrip(n: int)
    ensures ParseInt(FormatInt(n)) == Some(n)
  {
    if n < 0 {
      var d := NatDigits(-n);
      assert FormatInt(n) == "-" + d;
      assert ("-" + d)[1..] == d;
      ParseNatDigits(-n);
    } else {
      var d := NatDigits(n);
      assert FormatInt(n) == d;
      assert '0' <= d[0];
      ParseNatDigits(n);
    }
  }

  /** Different integers print differently. */
  lemma FormatIntInjective(m: int, n: int)
    requires FormatInt(m) == FormatInt(n)
    ensures m == n
  {
    FormatIntRoundTrip(m);
    FormatIntRoundTrip(n);
  }

  // ---------------------------------------------------------------- %q

  function HexDigit(d: nat): (c: char)
    requires d < 16
  {
    if d < 10 then ('0' as int + d) as char else ('a' as int + d - 10) as char
  }

  /** The value of one hexadecimal digit, either case, as `strconv.Unquote` reads it. */
  function HexValue(c: char): (r: Option<nat>)
    ensures r.Some? ==> r.value < 16
  {
    if '0' <= c <= '9' then Some(c as int - '0' as int)
    else if 'a' <= c <= 'f' then Some(c as int - 'a' as int + 10)
    else if 'A' <= c <= 'F' then Some(c as int - 'A' as int + 10)
    else None
  }

  function Hex2(hi: char, lo: char): (r: Option<nat>)
    ensures r.Some? ==> r.value < 256
  {
    match (HexValue(hi), HexValue(lo))
    case (Some(h), Some(l)) => Some(16 * h + l)
    case _ => None
  }

  /** Two lower-case hexadecimal digits of a byte value. */
  function HexByte(b: nat): (s: string)
    requires b < 256
    ensures |s| == 2 && Hex2(s[0], s[1]) == Some(b)
  {
    [HexDigit(b / 16), HexDigit(b % 16)]
  }

  /**
   * `strconv.IsPrint`, restricted to the code points where this model decides
   * it: the ASCII graphic characters and space are printable, the ASCII and
   * C1 control characters, U+00A0 and U+00AD are not, and every code point
   * above U+00A0 other than U+00AD is taken as printable.
   */
  predicate IsPrint(c: char)
  {
    (' ' <= c && c as int < 0x7f) || (c as int > 0xa0 && c as int != 0xad)
  }

  /** The one-letter escape Go writes for a control character, if it has one. */
  function NamedEscape(c: char): Option<char>
  {
    if c as int == 7 then Some('a')
    else if c as int == 8 then Some('b')
    else if c as int == 12 then Some('f')
    else if c == '\n' then Some('n')
    else if c == '\r' then Some('r')
    else if c == '\t' then Some('t')
    else if c as int == 11 then Some('v')
    else None
  }

  /** `appendEscapedRune` of `strconv` for a double-quoted literal. */
  function EscapeRune(c: char): (s: string)
    ensures |s| > 0 && s[0] != '"'
  {
    if c == '"' || c == '\\' then ['\\', c]
    else if IsPrint(c) then [c]
    else if NamedEscape(c).Some? then ['\\', NamedEscape(c).value]
    else if c < ' ' || c as int == 0x7f then ['\\', 'x'] + HexByte(c as int)
    else ['\\', 'u'] + HexByte(c as int / 256) + HexByte(c as int % 256)
  }

  /** The escaped characters of `s`, between the quotes. */
  function QuoteBody(s: string): string
  {
    if s == [] then [] else EscapeRune(s[0]) + QuoteBody(s[1..])
  }

  /** `fmt.Sprintf("%q", s)` on a string, that is `strconv.Quote(s)`. */
  function Quote(s: string): (q: string)
    ensures |q| >= 2 && q[0] == '"' && q[|q| - 1] == '"'
  {
    "\"" + QuoteBody(s) + "\""
  }

  /** The character a one-letter escape after a backslash stands for, inside a double-quoted literal. */
  function SimpleEscape(e: char): Option<char>
  {
    if e == 'a' then Some(7 as char)
    else if e == 'b' then Some(8 as char)
    else if e == 'f' then Some(12 as char)
    else if e == 'n' then Some('\n')
    else if e == 'r' then Some('\r')
    else if e == 't' then Some('\t')
    else if e == 'v' then Some(11 as char)
    else if e == '\\' then Some('\\')
    else if e == '"' then Some('"')
    else None
  }

  function Prepend(c: char, r: Option<(string, string)>): Option<(string, string)>
  {
    match r
    case None => None
    case Some((d, rest)) => Some(([c] + d, rest))
  }

  /**
   * Reads the inside of a double-quoted Go literal up to its closing quote,
   * giving the characters it denotes and the text after the quote. It reads
   * the escapes `Quote` writes: the one-letter ones, `\xhh` below 0x80 and
   * `\uhhhh` outside the surrogate range.
   */
  function UnquoteBody(s: string): Option<(string, string)>
    decreases |s|
  {
    if |s| == 0 then None
    else if s[0] == '"' then Some(([], s[1..]))
    else if s[0] != '\\' then Prepend(s[0], UnquoteBody(s[1..]))
    else if |s| < 2 then None
    else if SimpleEscape(s[1]).Some? then Prepend(SimpleEscape(s[1]).value, UnquoteBody(s[2..]))
    else if s[1] == 'x' && |s| >= 4 then
      match Hex2(s[2], s[3])
      case Some(v) => if v < 0x80 then Prepend(v as char, UnquoteBody(s[4..])) else None
      case None => None
    else if s[1] == 'u' && |s| >= 6 then
      match (Hex2(s[2], s[3]), Hex2(s[4], s[5]))
      case (Some(h), Some(l)) =>
        var v := 256 * h + l;
        if v < 0xd800 || 0xdfff < v then Prepend(v as char, UnquoteBody(s[6..])) else None
      case _ => None
    else None
  }

  /** Reads a quoted literal at the start of `s`, giving its value and the text after it. */
  function UnquotePrefix(s: string): Option<(string, string)>
  {
    if |s| > 0 && s[0] == '"' then UnquoteBody(s[1..]) else None
  }

  /** Reads a string that is exactly one quoted literal. */
  function Unquote(s: string): Option<string>
  {
    var r := UnquotePrefix(s);
    if r.Some? && r.value.1 == [] then Some(r.value.0) else None
  }

  lemma UnescapeHex(c: char, t: string)
    requires !IsPrint(c) && NamedEscape(c).None?
    ensures UnquoteBody(EscapeRune(c) + t) == Prepend(c, UnquoteBody(t))
  {
    var s := EscapeRune(c) + t;
    assert (c as int) as char == c;
    if c < ' ' || c as int == 0x7f {
      assert s[4..] == t;
    } else {
      assert s[6..] == t;
    }
  }

  lemma UnescapeRune(c: char, t: string)
    ensures UnquoteBody(EscapeRune(c) + t) == Prepend(c, UnquoteBody(t))
  {
    var s := EscapeRune(c) + t;
    if c == '"' || c == '\\' {
      assert s[2..] == t;
    } else if IsPrint(c) {
      assert s[1..] == t;
    } else if NamedEscape(c).Some? {
      assert s[2..] == t;
    } else {
      UnescapeHex(c, t);
    }
  }

  lemma {:induction false} QuoteBodyRoundTrip(x: string, rest: string)
    ensures UnquoteBody(QuoteBody(x) + "\"" + rest) == Some((x, rest))
  {
    if x == [] {
      assert QuoteBody(x) + "\"" + rest == ['"'] + rest;
      assert (['"'] + rest)[1..] == rest;
    } else {
      var head := EscapeRune(x[0]);
      var tail := QuoteBody(x[1..]) + "\"" + rest;
      assert QuoteBody(x) == head + QuoteBody(x[1..]);
      assert QuoteBody(x) + "\"" + rest == head + tail;
      UnescapeRune(x[0], tail);
      QuoteBodyRoundTrip(x[1..], rest);
      assert [x[0]] + x[1..] == x;
    }
  }

  /** A quoted string read back from the front of a longer text gives the string and what follows. */
  lemma UnquotePrefixOfQuote(x: string, rest: string)
    ensures UnquotePrefix(Quote(x) + rest) == Some((x, rest))
  {
    assert (Quote(x) + rest)[1..] == QuoteBody(x) + "\"" + rest;
    QuoteBodyRoundTrip(x, rest);
  }

  /** `%q` loses nothing: `strconv.Unquote(strconv.Quote(x)) == x`. */
  lemma QuoteRoundTrip(x: string)
    ensures Unquote(Quote(x)) == Some(x)
  {
    assert Quote(x) + [] == Quote(x);
    UnquotePrefixOfQuote(x, []);
  }
}
