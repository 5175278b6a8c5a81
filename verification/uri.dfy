/**
 * `encodeURIComponent` and `decodeURIComponent` (section 19.2.6 of ECMA-262): the
 * characters outside the unreserved set travel as the percent-escaped bytes of
 * their UTF-8 encoding (RFC 3629) with upper-case hexadecimal digits.
 */
module Uri {
  import opened Wrappers
  import JsonString

  /** The characters `encodeURIComponent` leaves as they are. */
  predicate Unreserved(c: char) {
    || ('A' <= c <= 'Z') || ('a' <= c <= 'z') || ('0' <= c <= '9')
    || c == '-' || c == '_' || c == '.' || c == '!' || c == '~' || c == '*' || c == '\'' || c == '(' || c == ')'
  }

  /** The upper-case digit for `n < 16`. */
  function HexUpper(n: nat): (c: char)
    requires n < 16
    ensures JsonString.HexValue(c) == Some(n)
  {
    if n < 10 then ('0' as nat + n) as char else ('A' as nat + n - 10) as char
  }

  /** The UTF-8 encoding of one scalar value: one to four bytes. */
  function Utf8(c: char): (r: seq<nat>)
    ensures 1 <= |r| <= 4
    ensures forall i :: 0 <= i < |r| ==> r[i] < 0x100
  {
    var u := c as int;
    if u < 0x80 then [u]
    else if u < 0x800 then [0xC0 + u / 0x40, 0x80 + u % 0x40]
    else if u < 0x1_0000 then [0xE0 + u / 0x1000, 0x80 + (u / 0x40) % 0x40, 0x80 + u % 0x40]
    else [0xF0 + u / 0x4_0000, 0x80 + (u / 0x1000) % 0x40, 0x80 + (u / 0x40) % 0x40, 0x80 + u % 0x40]
  }

  /** `%XX` for one byte. */
  function Escape(b: nat): string
    requires b < 0x100
  {
    ['%', HexUpper(b / 16), HexUpper(b % 16)]
  }

  function EscapeAll(bs: seq<nat>): (r: string)
    requires forall i :: 0 <= i < |bs| ==> bs[i] < 0x100
    ensures |r| == 3 * |bs|
    decreases |bs|
  {
    if |bs| == 0 then "" else Escape(bs[0]) + EscapeAll(bs[1..])
  }

  function EncodeChar(c: char): (r: string)
    ensures |r| > 0
  {
    if Unreserved(c) then [c] else EscapeAll(Utf8(c))
  }

  /** `encodeURIComponent(s)`. A Dafny `char` is never a lone surrogate, so the
      URIError for one cannot arise. */
  function Encode(s: string): (r: string)
    ensures |r| >= |s|
    decreases |s|
  {
    if |s| == 0 then "" else EncodeChar(s[0]) + Encode(s[1..])
  }

  // ---- Decoding ----

  /** The byte a `%XX` at index `i` denotes, if there is one. */
  function ByteAt(s: string, i: nat): (r: Option<nat>)
    ensures r.Some? ==> i + 3 <= |s| && r.value < 0x100
  {
    if i + 3 <= |s| && s[i] == '%' then
      match (JsonString.HexValue(s[i + 1]), JsonString.HexValue(s[i + 2]))
      case (Some(h), Some(l)) => Some(h * 16 + l)
      case _ => None
    else None
  }

  /** How many bytes a UTF-8 sequence with this lead byte has; 0 for an invalid lead. */
  function SequenceLength(b: nat): nat {
    if b < 0x80 then 1
    else if 0xC0 <= b < 0xE0 then 2
    else if 0xE0 <= b < 0xF0 then 3
    else if 0xF0 <= b < 0xF8 then 4
    else 0
  }

  /** The continuation byte at escape number `k` (counting from 0) of `s`. */
  function Continuation(s: string, k: nat): Option<nat> {
    match ByteAt(s, 3 * k)
    case Some(b) => if 0x80 <= b < 0xC0 then Some(b - 0x80) else None
    case None => None
  }

  /** The smallest scalar value that needs `n` bytes: longer encodings are rejected. */
  function Least(n: nat): nat {
    if n == 2 then 0x80 else if n == 3 then 0x800 else 0x1_0000
  }

  /** The character at the start of `s`, which opens with `%`, and the number of
      characters its escapes take. */
  function DecodeUnit(s: string): (r: Option<(char, nat)>)
    ensures r.Some? ==> 3 <= r.value.1 <= |s|
  {
    match ByteAt(s, 0)
    case None => None
    case Some(b) =>
      var n := SequenceLength(b);
      if n == 0 then None
      else if n == 1 then Some((b as char, 3))
      else if |s| < 3 * n then None
      else
        var lead := b - (if n == 2 then 0xC0 else if n == 3 then 0xE0 else 0xF0);
        match (Continuation(s, 1), if n >= 3 then Continuation(s, 2) else Some(0), if n == 4 then Continuation(s, 3) else Some(0))
        case (Some(c1), Some(c2), Some(c3)) =>
          var u :=
            if n == 2 then lead * 0x40 + c1
            else if n == 3 then lead * 0x1000 + c1 * 0x40 + c2
            else lead * 0x4_0000 + c1 * 0x1000 + c2 * 0x40 + c3;
          if u < Least(n) || (0xD800 <= u < 0xE000) || u >= 0x11_0000 then None
          else Some((u as char, 3 * n))
        case _ => None
  }

  /** `decodeURIComponent(s)`; `None` where it throws a URIError. */
  function Decode(s: string): (r: Option<string>)
    decreases |s|
  {
    if |s| == 0 then Some("")
    else if s[0] != '%' then JsonString.Cons(s[0], Decode(s[1..]))
    else match DecodeUnit(s)
      case None => None
      case Some((c, n)) => JsonString.Cons(c, Decode(s[n..]))
  }

  // ---- Round trip ----

  lemma EscapeDecodes(b: nat, rest: string)
    requires b < 0x100
    ensures ByteAt(Escape(b) + rest, 0) == Some(b)
  {
    var s := Escape(b) + rest;
    assert s[0] == '%' && s[1] == HexUpper(b / 16) && s[2] == HexUpper(b % 16);
  }

  /** The escape of byte number `k` of a sequence sits at index `3 * k`. */
  lemma EscapeAllAt(bs: seq<nat>, rest: string, k: nat)
    requires forall i :: 0 <= i < |bs| ==> bs[i] < 0x100
    requires k < |bs|
    ensures ByteAt(EscapeAll(bs) + rest, 3 * k) == Some(bs[k])
    decreases k
  {
    var s := EscapeAll(bs) + rest;
    if k == 0 {
      assert s == Escape(bs[0]) + (EscapeAll(bs[1..]) + rest);
      EscapeDecodes(bs[0], EscapeAll(bs[1..]) + rest);
    } else {
      EscapeAllAt(bs[1..], rest, k - 1);
      var t := EscapeAll(bs[1..]) + rest;
      assert s == Escape(bs[0]) + t;
      ByteAtShift(Escape(bs[0]), t, 3 * (k - 1));
    }
  }

  /** An escape is read the same after any three-character prefix. */
  lemma ByteAtShift(a: string, t: string, i: nat)
    requires |a| == 3
    ensures ByteAt(a + t, i + 3) == ByteAt(t, i)
  {
    var s := a + t;
    if i + 3 <= |t| {
      assert s[i + 3] == t[i] && s[i + 4] == t[i + 1] && s[i + 5] == t[i + 2];
    }
  }

  lemma Split2(u: int)
    requires 0x80 <= u < 0x800
    ensures (u / 0x40) * 0x40 + u % 0x40 == u
    ensures 2 <= u / 0x40 < 0x20
  {
  }

  lemma Split3(u: int)
    requires 0x800 <= u < 0x1_0000
    ensures (u / 0x1000) * 0x1000 + ((u / 0x40) % 0x40) * 0x40 + u % 0x40 == u
    ensures u / 0x1000 < 0x10
  {
    var a := u / 0x40;
    assert a * 0x40 + u % 0x40 == u;
    assert (a / 0x40) * 0x40 + a % 0x40 == a;
    assert a / 0x40 == u / 0x1000;
  }

  lemma Split4(u: int)
    requires 0x1_0000 <= u < 0x11_0000
    ensures (u / 0x4_0000) * 0x4_0000 + ((u / 0x1000) % 0x40) * 0x1000 + ((u / 0x40) % 0x40) * 0x40 + u % 0x40 == u
    ensures u / 0x4_0000 < 0x8
  {
    var a := u / 0x40;
    var b := a / 0x40;
    assert a * 0x40 + u % 0x40 == u;
    assert b * 0x40 + a % 0x40 == a;
    assert (b / 0x40) * 0x40 + b % 0x40 == b;
    assert b == u / 0x1000;
    assert b / 0x40 == u / 0x4_0000;
  }

  lemma DecodeOne(s: string, u: int)
    requires 0 <= u < 0x80
    requires ByteAt(s, 0) == Some(u)
    ensures DecodeUnit(s) == Some((u as char, 3))
  {
  }

  lemma DecodeTwo(s: string, u: int)
    requires 0x80 <= u < 0x800
    requires ByteAt(s, 0) == Some(0xC0 + u / 0x40)
    requires ByteAt(s, 3) == Some(0x80 + u % 0x40)
    ensures DecodeUnit(s) == Some((u as char, 6))
  {
    Split2(u);
    assert Continuation(s, 1) == Some(u % 0x40);
  }

  lemma DecodeThree(s: string, u: int)
    requires 0x800 <= u < 0x1_0000 && !(0xD800 <= u < 0xE000)
    requires ByteAt(s, 0) == Some(0xE0 + u / 0x1000)
    requires ByteAt(s, 3) == Some(0x80 + (u / 0x40) % 0x40)
    requires ByteAt(s, 6) == Some(0x80 + u % 0x40)
    ensures DecodeUnit(s) == Some((u as char, 9))
  {
    Split3(u);
    assert SequenceLength(0xE0 + u / 0x1000) == 3;
    assert Continuation(s, 1) == Some((u / 0x40) % 0x40);
    assert Continuation(s, 2) == Some(u % 0x40);
  }

  lemma DecodeFour(s: string, u: int)
    requires 0x1_0000 <= u < 0x11_0000
    requires ByteAt(s, 0) == Some(0xF0 + u / 0x4_0000)
    requires ByteAt(s, 3) == Some(0x80 + (u / 0x1000) % 0x40)
    requires ByteAt(s, 6) == Some(0x80 + (u / 0x40) % 0x40)
    requires ByteAt(s, 9) == Some(0x80 + u % 0x40)
    ensures DecodeUnit(s) == Some((u as char, 12))
  {
    Split4(u);
    assert SequenceLength(0xF0 + u / 0x4_0000) == 4;
    assert Continuation(s, 1) == Some((u / 0x1000) % 0x40);
    assert Continuation(s, 2) == Some((u / 0x40) % 0x40);
    assert Continuation(s, 3) == Some(u % 0x40);
  }

  /** Decoding the escapes of one character's UTF-8 bytes gives back the character. */
  lemma DecodeUnitOfChar(c: char, rest: string)
    ensures DecodeUnit(EscapeAll(Utf8(c)) + rest) == Some((c, |EscapeAll(Utf8(c))|))
  {
    var bs := Utf8(c);
    var u := c as int;
    if u < 0x80 {
      EscapeAllAt(bs, rest, 0);
      DecodeOne(EscapeAll(bs) + rest, u);
    } else if u < 0x800 {
      DecodeTwoEscapes(bs, rest, u);
    } else if u < 0x1_0000 {
      DecodeThreeEscapes(bs, rest, u);
    } else {
      DecodeFourEscapes(bs, rest, u);
    }
  }

  lemma DecodeTwoEscapes(bs: seq<nat>, rest: string, u: int)
    requires 0x80 <= u < 0x800
    requires bs == [0xC0 + u / 0x40, 0x80 + u % 0x40]
    ensures DecodeUnit(EscapeAll(bs) + rest) == Some((u as char, 6))
  {
    EscapeAllAt(bs, rest, 0);
    EscapeAllAt(bs, rest, 1);
    DecodeTwo(EscapeAll(bs) + rest, u);
  }

  lemma DecodeThreeEscapes(bs: seq<nat>, rest: string, u: int)
    requires 0x800 <= u < 0x1_0000 && !(0xD800 <= u < 0xE000)
    requires bs == [0xE0 + u / 0x1000, 0x80 + (u / 0x40) % 0x40, 0x80 + u % 0x40]
    ensures DecodeUnit(EscapeAll(bs) + rest) == Some((u as char, 9))
  {
    EscapeAllAt(bs, rest, 0);
    EscapeAllAt(bs, rest, 1);
    EscapeAllAt(bs, rest, 2);
    DecodeThree(EscapeAll(bs) + rest, u);
  }

  lemma DecodeFourEscapes(bs: seq<nat>, rest: string, u: int)
    requires 0x1_0000 <= u < 0x11_0000
    requires bs == [0xF0 + u / 0x4_0000, 0x80 + (u / 0x1000) % 0x40, 0x80 + (u / 0x40) % 0x40, 0x80 + u % 0x40]
    ensures DecodeUnit(EscapeAll(bs) + rest) == Some((u as char, 12))
  {
    EscapeAllAt(bs, rest, 0);
    EscapeAllAt(bs, rest, 1);
    EscapeAllAt(bs, rest, 2);
    EscapeAllAt(bs, rest, 3);
    DecodeFour(EscapeAll(bs) + rest, u);
  }

  lemma DecodeEncodedChar(c: char, rest: string)
    ensures Decode(EncodeChar(c) + rest) == JsonString.Cons(c, Decode(rest))
  {
    var s := EncodeChar(c) + rest;
    if Unreserved(c) {
      assert s[0] == c && s[1..] == rest;
    } else {
      var e := EscapeAll(Utf8(c));
      DecodeUnitOfChar(c, rest);
      EscapeAllAt(Utf8(c), rest, 0);
      assert s[0] == '%';
      assert s[|e|..] == rest;
    }
  }

  /** `decodeURIComponent(encodeURIComponent(s)) == s`. */
  lemma {:induction false} DecodeEncode(s: string)
    ensures Decode(Encode(s)) == Some(s)
    decreases |s|
  {
    if |s| > 0 {
      DecodeEncode(s[1..]);
      DecodeEncodedChar(s[0], Encode(s[1..]));
      assert [s[0]] + s[1..] == s;
    }
  }

  /** What may appear in an encoded component. */
  predicate Safe(c: char) {
    Unreserved(c) || c == '%' || JsonString.HexValue(c).Some?
  }

  /** The encoding holds only unreserved characters and escapes. */
  lemma {:induction false} EncodeIsSafe(s: string)
    ensures forall i :: 0 <= i < |Encode(s)| ==> Safe(Encode(s)[i])
    decreases |s|
  {
    if |s| > 0 {
      EncodeIsSafe(s[1..]);
      EncodeCharIsSafe(s[0]);
      var a := EncodeChar(s[0]);
      var b := Encode(s[1..]);
      forall i | 0 <= i < |a + b|
        ensures Safe((a + b)[i])
      {
        if i < |a| { assert (a + b)[i] == a[i]; } else { assert (a + b)[i] == b[i - |a|]; }
      }
    }
  }

  lemma EncodeCharIsSafe(c: char)
    ensures forall i :: 0 <= i < |EncodeChar(c)| ==> Safe(EncodeChar(c)[i])
  {
    if !Unreserved(c) {
      EscapeAllIsSafe(Utf8(c));
    }
  }

  lemma {:induction false} EscapeAllIsSafe(bs: seq<nat>)
    requires forall i :: 0 <= i < |bs| ==> bs[i] < 0x100
    ensures forall i :: 0 <= i < |EscapeAll(bs)| ==> EscapeAll(bs)[i] == '%' || JsonString.HexValue(EscapeAll(bs)[i]).Some?
    decreases |bs|
  {
    if |bs| > 0 {
      EscapeAllIsSafe(bs[1..]);
      var a := Escape(bs[0]);
      var b := EscapeAll(bs[1..]);
      forall i | 0 <= i < |a + b|
        ensures (a + b)[i] == '%' || JsonString.HexValue((a + b)[i]).Some?
      {
        if i < |a| { assert (a + b)[i] == a[i]; } else { assert (a + b)[i] == b[i - |a|]; }
      }
    }
  }
}
