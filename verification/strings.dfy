/**
 * String helpers with JavaScript semantics: `trim`, `startsWith`, `includes`,
 * `split("\n")`, `join("")`, `replace(string, string)`, and ASCII case mapping.
 */
module Strings {

  /** The characters JavaScript's `trim` and the regular-expression class `\s` remove:
      WhiteSpace and LineTerminator of ECMA-262. */
  predicate IsSpace(c: char) {
    || c == '\t' || c == '\n' || c == '\U{000B}' || c == '\U{000C}' || c == '\r' || c == ' '
    || c == '\U{00A0}' || c == '\U{1680}' || ('\U{2000}' <= c <= '\U{200A}')
    || c == '\U{2028}' || c == '\U{2029}' || c == '\U{202F}' || c == '\U{205F}'
    || c == '\U{3000}' || c == '\U{FEFF}'
  }

  /** The characters a regular-expression `.` does not match. */
  predicate IsLineTerminator(c: char) {
    c == '\n' || c == '\r' || c == '\U{2028}' || c == '\U{2029}'
  }

  /** `s.trimStart()`: the suffix left after dropping leading white space. */
  function TrimStart(s: string): (r: string)
    ensures |r| <= |s| && r == s[|s| - |r|..]
    ensures forall i :: 0 <= i < |s| - |r| ==> IsSpace(s[i])
    ensures |r| > 0 ==> !IsSpace(r[0])
  {
    if |s| > 0 && IsSpace(s[0]) then TrimStart(s[1..]) else s
  }

  /** `s.trimEnd()`: the prefix left after dropping trailing white space. */
  function TrimEnd(s: string): (r: string)
    ensures |r| <= |s| && r == s[..|r|]
    ensures forall i :: |r| <= i < |s| ==> IsSpace(s[i])
    ensures |r| > 0 ==> !IsSpace(r[|r| - 1])
  {
    if |s| > 0 && IsSpace(s[|s| - 1]) then TrimEnd(s[..|s| - 1]) else s
  }

  /** `s.trim()`. */
  function Trim(s: string): string {
    TrimEnd(TrimStart(s))
  }

  /** Trimming a string whose first and last characters are not white space changes nothing. */
  lemma TrimKeeps(s: string)
    requires |s| > 0 && !IsSpace(s[0]) && !IsSpace(s[|s| - 1])
    ensures Trim(s) == s
  {
  }

  /** `s.startsWith(p)`. */
  predicate StartsWith(s: string, p: string) {
    |p| <= |s| && s[..|p|] == p
  }

  /** A prefix of `a` is a prefix of every extension of `a`. */
  lemma StartsWithExtend(a: string, b: string, p: string)
    requires StartsWith(a, p)
    ensures StartsWith(a + b, p)
  {
    assert (a + b)[..|p|] == a[..|p|];
  }

  /** `s.includes(sub)`: `sub` occurs at some position of `s`. */
  predicate Contains(s: string, sub: string)
    decreases |s|
  {
    StartsWith(s, sub) || (|s| > 0 && Contains(s[1..], sub))
  }

  /** A string contains whatever stands at one of its positions. */
  lemma ContainsAt(s: string, sub: string, i: nat)
    requires i + |sub| <= |s| && s[i..i + |sub|] == sub
    ensures Contains(s, sub)
  {
    ContainsInfix(s[..i], sub, s[i + |sub|..]);
    assert s[..i] + sub + s[i + |sub|..] == s;
  }

  /** A string contains every infix of a concatenation it is the middle of. */
  lemma {:induction false} ContainsInfix(a: string, b: string, c: string)
    ensures Contains(a + b + c, b)
    decreases |a|
  {
    if |a| == 0 {
      assert a + b + c == b + c;
      assert (b + c)[..|b|] == b;
    } else {
      assert (a + b + c)[1..] == a[1..] + b + c;
      ContainsInfix(a[1..], b, c);
    }
  }

  /** An occurrence of `sub` inside `s` is an occurrence inside `p + s`. */
  lemma {:induction false} ContainsAfterPrefix(p: string, s: string, sub: string)
    requires Contains(s, sub)
    ensures Contains(p + s, sub)
    decreases |p|
  {
    if |p| > 0 {
      assert (p + s)[1..] == p[1..] + s;
      ContainsAfterPrefix(p[1..], s, sub);
    } else {
      assert p + s == s;
    }
  }

  /** An occurrence of `sub` inside `s` is an occurrence inside `s + q`. */
  lemma {:induction false} ContainsBeforeSuffix(s: string, q: string, sub: string)
    requires Contains(s, sub)
    ensures Contains(s + q, sub)
    decreases |s|
  {
    if StartsWith(s, sub) {
      assert (s + q)[..|sub|] == s[..|sub|];
    } else {
      assert (s + q)[1..] == s[1..] + q;
      ContainsBeforeSuffix(s[1..], q, sub);
    }
  }

  /** Occurrence is transitive: what occurs in an infix occurs in the whole. */
  lemma {:induction false} ContainsTransitive(a: string, b: string, c: string)
    requires Contains(a, b) && Contains(b, c)
    ensures Contains(a, c)
    decreases |a|
  {
    if StartsWith(a, b) {
      ContainsBeforeSuffix(b, a[|b|..], c);
      assert b + a[|b|..] == a;
    } else {
      ContainsTransitive(a[1..], b, c);
    }
  }

  /** The first character of anything a string contains occurs in it. */
  lemma {:induction false} ContainsHead(s: string, sub: string)
    requires Contains(s, sub) && |sub| > 0
    ensures sub[0] in s
    decreases |s|
  {
    if StartsWith(s, sub) {
      assert s[0] == s[..|sub|][0];
    } else {
      ContainsHead(s[1..], sub);
    }
  }

  /** ASCII-only `toLowerCase` of one character. */
  function LowerChar(c: char): char {
    if 'A' <= c <= 'Z' then (c as int + 32) as char else c
  }

  /** ASCII-only `toUpperCase` of one character. */
  function UpperChar(c: char): char {
    if 'a' <= c <= 'z' then (c as int - 32) as char else c
  }

  /** `s.toLowerCase()`, restricted to the ASCII letters. */
  function Lower(s: string): (r: string)
    ensures |r| == |s| && forall i :: 0 <= i < |s| ==> r[i] == LowerChar(s[i])
  {
    seq(|s|, i requires 0 <= i < |s| => LowerChar(s[i]))
  }

  /** `s.toUpperCase()`, restricted to the ASCII letters. */
  function Upper(s: string): (r: string)
    ensures |r| == |s| && forall i :: 0 <= i < |s| ==> r[i] == UpperChar(s[i])
  {
    seq(|s|, i requires 0 <= i < |s| => UpperChar(s[i]))
  }

  /** `s.split("\n")`: the newline-separated segments, always at least one. */
  function Split(s: string): (r: seq<string>)
    ensures |r| >= 1
    ensures forall i :: 0 <= i < |r| ==> '\n' !in r[i]
    decreases |s|
  {
    if |s| == 0 then [""]
    else if s[0] == '\n' then [""] + Split(s[1..])
    else
      var t := Split(s[1..]);
      [[s[0]] + t[0]] + t[1..]
  }

  /** The segments of `s` that a newline closes: every segment but the last. */
  function CompleteLines(s: string): seq<string> {
    var parts := Split(s);
    parts[..|parts| - 1]
  }

  /** The segment after the last newline of `s`: the partial line still pending. */
  function PendingLine(s: string): (r: string)
    ensures '\n' !in r
  {
    var parts := Split(s);
    parts[|parts| - 1]
  }

  /** Splitting a concatenation: the closed segments of `a`, then the split of its
      pending segment followed by `b`. */
  lemma {:induction false} SplitAppend(a: string, b: string)
    ensures Split(a + b) == CompleteLines(a) + Split(PendingLine(a) + b)
    decreases |a|
  {
    if |a| == 0 {
      assert a + b == b;
    } else {
      SplitAppend(a[1..], b);
      assert (a + b)[1..] == a[1..] + b;
      if a[0] == '\n' {
        SplitAppendNewline(a, b, a[1..]);
      } else {
        SplitAppendChar(a, b, a[1..]);
      }
    }
  }

  lemma SplitAppendNewline(a: string, b: string, r: string)
    requires |a| > 0 && a[0] == '\n' && r == a[1..] && (a + b)[1..] == r + b
    requires Split(r + b) == CompleteLines(r) + Split(PendingLine(r) + b)
    ensures Split(a + b) == CompleteLines(a) + Split(PendingLine(a) + b)
  {
    var s := Split(r);
    SplitHead(a);
    SplitHead(a + b);
    ConsSlices("", s);
    AppendAssoc([""], CompleteLines(r), Split(PendingLine(r) + b));
  }

  lemma SplitAppendChar(a: string, b: string, r: string)
    requires |a| > 0 && a[0] != '\n' && r == a[1..] && (a + b)[1..] == r + b
    requires Split(r + b) == CompleteLines(r) + Split(PendingLine(r) + b)
    ensures Split(a + b) == CompleteLines(a) + Split(PendingLine(a) + b)
  {
    var s := Split(r);
    var t := Split(r + b);
    var c := a[0];
    SplitHead(a);
    SplitHead(a + b);
    assert Split(a) == [[c] + s[0]] + s[1..];
    assert Split(a + b) == [[c] + t[0]] + t[1..];
    if |s| == 1 {
      var w := ([c] + s[0]) + b;
      assert w[0] == c && w[1..] == s[0] + b;
      SplitHead(w);
      assert CompleteLines(a) == [] && PendingLine(a) == [c] + s[0];
      assert t == Split(s[0] + b);
    } else {
      ConsSegments(c, s, Split(PendingLine(r) + b), t);
    }
  }

  /** Prefixing the first segment of a list of at least two segments. */
  lemma ConsSegments(c: char, s: seq<string>, x: seq<string>, t: seq<string>)
    requires |s| > 1 && t == s[..|s| - 1] + x
    ensures var sa := [[c] + s[0]] + s[1..];
      && [[c] + t[0]] + t[1..] == sa[..|sa| - 1] + x
      && sa[|sa| - 1] == s[|s| - 1]
  {
    var sa := [[c] + s[0]] + s[1..];
    assert t[0] == s[0];
    assert t[1..] == s[1..|s| - 1] + x;
    assert sa[..|sa| - 1] == [[c] + s[0]] + s[1..|s| - 1];
  }

  /** One step of `Split` at the front of a non-empty string. */
  lemma SplitHead(x: string)
    requires |x| > 0
    ensures x[0] == '\n' ==> Split(x) == [""] + Split(x[1..])
    ensures x[0] != '\n' ==> Split(x) == [[x[0]] + Split(x[1..])[0]] + Split(x[1..])[1..]
  {}

  /** The all-but-last and the last element of a list with a new first element. */
  lemma ConsSlices<T>(e: T, u: seq<T>)
    requires |u| > 0
    ensures ([e] + u)[..|u|] == [e] + u[..|u| - 1]
    ensures ([e] + u)[|u|] == u[|u| - 1]
  {}

  lemma DropFirstOfAppend<T>(u: seq<T>, x: seq<T>)
    requires |u| > 0
    ensures (u + x)[0] == u[0] && (u + x)[1..] == u[1..] + x
  {}

  lemma AppendAssoc<T>(a: seq<T>, b: seq<T>, c: seq<T>)
    ensures a + (b + c) == (a + b) + c
  {}

  /** The closed segments of a concatenation are those of `a` followed by those of
      the pending segment of `a` extended by `b`. */
  lemma CompleteLinesAppend(a: string, b: string)
    ensures CompleteLines(a + b) == CompleteLines(a) + CompleteLines(PendingLine(a) + b)
    ensures PendingLine(a + b) == PendingLine(PendingLine(a) + b)
  {
    SplitAppend(a, b);
  }

  /** A string without newlines is a single pending segment. */
  lemma {:induction false} SplitNoNewline(s: string)
    requires '\n' !in s
    ensures Split(s) == [s]
    decreases |s|
  {
    if |s| > 0 {
      assert '\n' !in s[1..];
      SplitNoNewline(s[1..]);
      assert [s[0]] + s[1..] == s;
    }
  }

  /** `parts.join("")`. */
  function Concat(parts: seq<string>): (r: string)
    ensures |parts| == 0 ==> r == ""
    decreases |parts|
  {
    if |parts| == 0 then "" else Concat(parts[..|parts| - 1]) + parts[|parts| - 1]
  }

  /** Joining distributes over concatenation of the part lists. */
  lemma {:induction false} ConcatAppend(a: seq<string>, b: seq<string>)
    ensures Concat(a + b) == Concat(a) + Concat(b)
    decreases |b|
  {
    if |b| == 0 {
      assert a + b == a;
      assert Concat(a) + "" == Concat(a);
    } else {
      var init, last := b[..|b| - 1], b[|b| - 1];
      assert (a + b)[..|a + b| - 1] == a + init;
      assert (a + b)[|a + b| - 1] == last;
      ConcatAppend(a, init);
      assert Concat(b) == Concat(init) + last;
      AppendAssoc(Concat(a), Concat(init), last);
    }
  }

  /** Joining gives the empty string exactly when every part is empty. */
  lemma {:induction false} ConcatEmpty(parts: seq<string>)
    ensures Concat(parts) == "" <==> forall i :: 0 <= i < |parts| ==> parts[i] == ""
    decreases |parts|
  {
    if |parts| > 0 {
      var init := parts[..|parts| - 1];
      ConcatEmpty(init);
      assert Concat(parts) == Concat(init) + parts[|parts| - 1];
      assert forall i :: 0 <= i < |init| ==> init[i] == parts[i];
    }
  }

  /** Joining a non-empty list is its first part followed by the join of the rest. */
  lemma ConcatCons(parts: seq<string>)
    requires |parts| > 0
    ensures Concat(parts) == parts[0] + Concat(parts[1..])
  {
    ConcatAppend([parts[0]], parts[1..]);
    assert [parts[0]] + parts[1..] == parts;
    assert Concat([parts[0]]) == "" + parts[0];
    assert "" + parts[0] == parts[0];
  }

  /** `s.endsWith(q)`. */
  predicate EndsWith(s: string, q: string) {
    |q| <= |s| && s[|s| - |q|..] == q
  }

  /** `parts.join(sep)`. */
  function Join(parts: seq<string>, sep: string): (r: string)
    decreases |parts|
  {
    if |parts| == 0 then ""
    else if |parts| == 1 then parts[0]
    else parts[0] + sep + Join(parts[1..], sep)
  }

  /** `split("\n")` loses nothing: joining the segments with newlines gives the
      string back. */
  lemma {:induction false} JoinSplit(s: string)
    ensures Join(Split(s), "\n") == s
    decreases |s|
  {
    if |s| > 0 {
      var t := Split(s[1..]);
      JoinSplit(s[1..]);
      assert [s[0]] + s[1..] == s;
      if s[0] == '\n' {
        var parts := [""] + t;
        assert parts[1..] == t;
        assert Join(parts, "\n") == "" + "\n" + Join(t, "\n");
      } else {
        var parts := [[s[0]] + t[0]] + t[1..];
        if |t| == 1 {
          assert Join(parts, "\n") == [s[0]] + t[0];
        } else {
          assert parts[1..] == t[1..];
          assert Join(t, "\n") == t[0] + "\n" + Join(t[1..], "\n");
          assert Join(parts, "\n") == [s[0]] + t[0] + "\n" + Join(t[1..], "\n");
        }
      }
    }
  }

  /** A join begins with its first part and ends with its last. */
  lemma {:induction false} JoinEnds(parts: seq<string>, sep: string)
    requires |parts| > 0
    ensures StartsWith(Join(parts, sep), parts[0])
    ensures EndsWith(Join(parts, sep), parts[|parts| - 1])
    decreases |parts|
  {
    if |parts| > 1 {
      var r := Join(parts[1..], sep);
      JoinEnds(parts[1..], sep);
      assert (parts[0] + sep + r)[..|parts[0]|] == parts[0];
      var w := parts[0] + sep + r;
      assert w[|w| - |parts[|parts| - 1]|..] == r[|r| - |parts[|parts| - 1]|..];
    }
  }

  /** Every part occurs in the join. */
  lemma {:induction false} JoinContainsPart(parts: seq<string>, sep: string, i: nat)
    requires i < |parts|
    ensures Contains(Join(parts, sep), parts[i])
    decreases |parts|
  {
    if |parts| == 1 {
      ContainsInfix("", parts[0], "");
      assert "" + parts[0] + "" == parts[0];
    } else if i == 0 {
      ContainsInfix("", parts[0], sep + Join(parts[1..], sep));
      assert "" + parts[0] + (sep + Join(parts[1..], sep)) == parts[0] + sep + Join(parts[1..], sep);
    } else {
      JoinContainsPart(parts[1..], sep, i - 1);
      ContainsAfterPrefix(parts[0] + sep, Join(parts[1..], sep), parts[i]);
    }
  }

  /** Index of the first occurrence of `pat` in `s` at or after `from`, if any. */
  function IndexOf(s: string, pat: string, from: nat): (r: int)
    requires from <= |s|
    ensures r == -1 || (from <= r && r + |pat| <= |s| && s[r..r + |pat|] == pat)
    ensures r != -1 ==> forall k :: from <= k < r ==> !StartsWith(s[k..], pat)
    ensures r == -1 ==> forall k :: from <= k <= |s| ==> !StartsWith(s[k..], pat)
    decreases |s| - from
  {
    if StartsWith(s[from..], pat) then from
    else if from == |s| then -1
    else IndexOf(s, pat, from + 1)
  }

  /** `s.replace(pat, rep)` with a string pattern: only the first occurrence changes. */
  function ReplaceFirst(s: string, pat: string, rep: string): string {
    var i := IndexOf(s, pat, 0);
    if i == -1 then s else s[..i] + rep + s[i + |pat|..]
  }

  /** `pat` occurs at `k` and nowhere before it. */
  predicate FirstAt(s: string, pat: string, k: nat) {
    && k + |pat| <= |s| && s[k..k + |pat|] == pat
    && forall j :: 0 <= j < k ==> !StartsWith(s[j..], pat)
  }

  /** Replacing the first occurrence splices `rep` in at that occurrence. */
  lemma ReplaceFirstAt(s: string, pat: string, rep: string, k: nat)
    requires FirstAt(s, pat, k)
    ensures ReplaceFirst(s, pat, rep) == s[..k] + rep + s[k + |pat|..]
  {
    assert StartsWith(s[k..], pat) by {
      assert s[k..][..|pat|] == s[k..k + |pat|];
    }
    var i := IndexOf(s, pat, 0);
    if i != -1 {
      assert s[i..][..|pat|] == s[i..i + |pat|];
    }
  }

  /** Code-point lexicographic order, the stand-in for `localeCompare(...) <= 0`. */
  predicate LexLe(a: string, b: string)
    decreases |a|
  {
    |a| == 0 || (|b| > 0 && (a[0] < b[0] || (a[0] == b[0] && LexLe(a[1..], b[1..]))))
  }

  lemma {:induction false} LexLeTotal(a: string, b: string)
    ensures LexLe(a, b) || LexLe(b, a)
    decreases |a|
  {
    if |a| > 0 && |b| > 0 && a[0] == b[0] {
      LexLeTotal(a[1..], b[1..]);
    }
  }

  lemma {:induction false} LexLeTransitive(a: string, b: string, c: string)
    requires LexLe(a, b) && LexLe(b, c)
    ensures LexLe(a, c)
    decreases |a|
  {
    if |a| > 0 && a[0] == b[0] && b[0] == c[0] {
      LexLeTransitive(a[1..], b[1..], c[1..]);
    }
  }

  lemma {:induction false} LexLeAntisymmetric(a: string, b: string)
    requires LexLe(a, b) && LexLe(b, a)
    ensures a == b
    decreases |a|
  {
    if |a| > 0 {
      LexLeAntisymmetric(a[1..], b[1..]);
      assert a == [a[0]] + a[1..] && b == [b[0]] + b[1..];
    }
  }

  lemma {:induction false} LexLeReflexive(a: string)
    ensures LexLe(a, a)
    decreases |a|
  {
    if |a| > 0 {
      LexLeReflexive(a[1..]);
    }
  }
}
