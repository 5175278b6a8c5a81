/**
 * The body of a JSON string literal (section 7 of RFC 8259): `Unescape` is what
 * `JSON.parse` makes of `"` + content + `"`, and `Escape` is the quoting
 * `JSON.stringify` applies, its partner in the round trip.
 */
module JsonString {
  import opened Wrappers

  const Replacement: char := '\U{FFFD}'

  /** The value of one hexadecimal digit. */
  function HexValue(c: char): Option<nat> {
    if '0' <= c <= '9' then Some(c as nat - '0' as nat)
    else if 'a' <= c <= 'f' then Some(c as nat - 'a' as nat + 10)
    else if 'A' <= c <= 'F' then Some(c as nat - 'A' as nat + 10)
    else None
  }

  /** The lower-case digit for `n < 16`. */
  function HexDigit(n: nat): (c: char)
    requires n < 16
    ensures HexValue(c) == Some(n)
  {
    if n < 10 then ('0' as nat + n) as char else ('a' as nat + n - 10) as char
  }

  /** The code unit named by the four hexadecimal digits of a `\u` escape. */
  function Hex4(s: string): (r: Option<nat>)
    requires |s| == 4
    ensures r.Some? ==> r.value < 0x1_0000
  {
    match (HexValue(s[0]), HexValue(s[1]), HexValue(s[2]), HexValue(s[3]))
    case (Some(a), Some(b), Some(c), Some(d)) =>
      assert a < 16 && b < 16 && c < 16 && d < 16;
      Some(a * 0x1000 + b * 0x100 + c * 0x10 + d)
    case _ => None
  }

  /** The character a single code unit denotes; a lone surrogate, which a Dafny
      `char` cannot hold, becomes U+FFFD. */
  function UnitChar(u: nat): char
    requires u < 0x1_0000
  {
    if 0xD800 <= u < 0xE000 then Replacement else u as char
  }

  /** The character a surrogate pair denotes. */
  function PairChar(hi: nat, lo: nat): char
    requires 0xD800 <= hi < 0xDC00 && 0xDC00 <= lo < 0xE000
  {
    (0x1_0000 + (hi - 0xD800) * 0x400 + (lo - 0xDC00)) as char
  }

  /** The character of a two-character escape `\x`, if `x` names one. */
  function ShortEscape(x: char): Option<char> {
    match x
    case '"' => Some('"')
    case '\\' => Some('\\')
    case '/' => Some('/')
    case 'b' => Some('\U{0008}')
    case 'f' => Some('\U{000C}')
    case 'n' => Some('\n')
    case 'r' => Some('\r')
    case 't' => Some('\t')
    case _ => None
  }

  function Cons(c: char, rest: Option<string>): Option<string> {
    match rest
    case Some(r) => Some([c] + r)
    case None => None
  }

  /** Decodes the content of a JSON string literal; `None` where `JSON.parse` throws,
      which `UnescapeDefinedExactly` pins down as the strings outside `WellFormed`. */
  function Unescape(s: string): (r: Option<string>)
    ensures r.Some? ==> |r.value| <= |s|
    decreases |s|
  {
    if |s| == 0 then Some("")
    else if s[0] == '\\' then
      if |s| < 2 then None
      else if s[1] == 'u' then
        if |s| < 6 then None
        else match Hex4(s[2..6])
          case None => None
          case Some(u) =>
            if 0xD800 <= u < 0xDC00 && |s| >= 12 && s[6] == '\\' && s[7] == 'u'
               && Hex4(s[8..12]).Some? && 0xDC00 <= Hex4(s[8..12]).value < 0xE000
            then Cons(PairChar(u, Hex4(s[8..12]).value), Unescape(s[12..]))
            else Cons(UnitChar(u), Unescape(s[6..]))
      else match ShortEscape(s[1])
        case Some(c) => Cons(c, Unescape(s[2..]))
        case None => None
    else if s[0] == '"' || s[0] < ' ' then None
    else Cons(s[0], Unescape(s[1..]))
  }

  // ---- The grammar of section 7 of RFC 8259 ----

  /** `unescaped = %x20-21 / %x23-5B / %x5D-10FFFF`. */
  predicate Unescaped(c: char) {
    c >= ' ' && c != '"' && c != '\\'
  }

  /** The letters after a backslash in a two-character escape. */
  predicate EscapeLetter(c: char) {
    c == '"' || c == '\\' || c == '/' || c == 'b' || c == 'f' || c == 'n' || c == 'r' || c == 't'
  }

  /** `HEXDIG`, in either case. */
  predicate IsHexDigit(c: char) {
    '0' <= c <= '9' || 'a' <= c <= 'f' || 'A' <= c <= 'F'
  }

  /** `*char`: the content a string literal may hold between its quotes. */
  predicate WellFormed(s: string)
    decreases |s|
  {
    if |s| == 0 then true
    else if Unescaped(s[0]) then WellFormed(s[1..])
    else if |s| >= 2 && s[0] == '\\' && EscapeLetter(s[1]) then WellFormed(s[2..])
    else
      && |s| >= 6 && s[0] == '\\' && s[1] == 'u'
      && IsHexDigit(s[2]) && IsHexDigit(s[3]) && IsHexDigit(s[4]) && IsHexDigit(s[5])
      && WellFormed(s[6..])
  }

  lemma Hex4Defined(s: string)
    requires |s| == 4
    ensures Hex4(s).Some? <==> IsHexDigit(s[0]) && IsHexDigit(s[1]) && IsHexDigit(s[2]) && IsHexDigit(s[3])
  {
  }

  /** `Unescape` succeeds exactly on the grammar's strings: surrogate pairs need no
      rule of their own, since the second escape is itself well formed. */
  lemma {:induction false} UnescapeDefinedExactly(s: string)
    ensures Unescape(s).Some? <==> WellFormed(s)
    decreases |s|
  {
    if |s| == 0 {
    } else if s[0] == '\\' {
      if |s| >= 2 && s[1] == 'u' {
        if |s| >= 6 {
          Hex4Defined(s[2..6]);
          UnescapeDefinedExactly(s[6..]);
          if Hex4(s[2..6]).Some? && |s| >= 12 && s[6] == '\\' && s[7] == 'u' {
            var t := s[6..];
            assert t[2..6] == s[8..12];
            assert t[6..] == s[12..];
            Hex4Defined(s[8..12]);
            UnescapeDefinedExactly(s[12..]);
          }
        }
      } else if |s| >= 2 {
        UnescapeDefinedExactly(s[2..]);
      }
    } else {
      UnescapeDefinedExactly(s[1..]);
    }
  }

  /** How `JSON.stringify` writes one character inside a string literal. */
  function EscapeChar(c: char): (r: string)
    ensures |r| >= 1
  {
    match c
    case '"' => "\\\""
    case '\\' => "\\\\"
    case '\U{0008}' => "\\b"
    case '\t' => "\\t"
    case '\n' => "\\n"
    case '\U{000C}' => "\\f"
    case '\r' => "\\r"
    case _ =>
      if c < ' ' then "\\u00" + [HexDigit(c as nat / 16), HexDigit(c as nat % 16)]
      else [c]
  }

  /** The content `JSON.stringify` writes between the quotes of a string. */
  function Escape(s: string): (r: string)
    ensures |r| >= |s|
    decreases |s|
  {
    if |s| == 0 then "" else EscapeChar(s[0]) + Escape(s[1..])
  }

  lemma UnescapeEscapedChar(c: char, rest: string)
    ensures Unescape(EscapeChar(c) + rest) == Cons(c, Unescape(rest))
  {
    var e := EscapeChar(c);
    var s := e + rest;
    if c == '"' || c == '\\' || c == '\U{0008}' || c == '\t' || c == '\n' || c == '\U{000C}' || c == '\r' {
      assert s[0] == '\\' && s[2..] == rest;
    } else if c < ' ' {
      var n := c as nat;
      assert s[0] == '\\' && s[1] == 'u';
      assert s[2..6] == ['0', '0', HexDigit(n / 16), HexDigit(n % 16)];
      assert Hex4(s[2..6]) == Some(n);
      assert s[6..] == rest;
      assert UnitChar(n) == c;
    } else {
      assert s[0] == c && s[1..] == rest;
    }
  }

  /** Decoding what `JSON.stringify` wrote gives back the original string. */
  lemma {:induction false} EscapeRoundTrip(s: string)
    ensures Unescape(Escape(s)) == Some(s)
    decreases |s|
  {
    if |s| > 0 {
      EscapeRoundTrip(s[1..]);
      UnescapeEscapedChar(s[0], Escape(s[1..]));
      assert [s[0]] + s[1..] == s;
    }
  }
}
