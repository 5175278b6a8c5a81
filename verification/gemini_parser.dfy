/**
 * The buffer-and-rescan scanner for the URL-keyed backend (`streamGemini` in
 * src/services/llm.ts). Each read is appended to a buffer, the buffer is scanned
 * with the global pattern `"text":\s*"((?:[^"\\]|\\.)*)"`, every match whose
 * content `JSON.parse` accepts yields that content (when non-empty), and the buffer
 * is cut after the last such match.
 *
 * The pattern is written out by hand. `MatchHead(s)` is the pattern anchored at the
 * start of `s`; `Find(s)` is the leftmost match, as `RegExp.prototype.exec` returns
 * it; `Pass(s)` is the whole `while ((match = regex.exec(buffer)) !== null)` loop.
 */
module GeminiParser {
  import opened Wrappers
  import opened Strings
  import opened Streams
  import JsonString

  /** The literal that opens every match. */
  const Key: string := "\"text\":"

  /** `\s*`: the first index at or after `j` that is not white space. */
  function SkipSpace(s: string, j: nat): (r: nat)
    requires j <= |s|
    ensures j <= r <= |s|
    ensures forall k :: j <= k < r ==> IsSpace(s[k])
    ensures r < |s| ==> !IsSpace(s[r])
    decreases |s| - j
  {
    if j < |s| && IsSpace(s[j]) then SkipSpace(s, j + 1) else j
  }

  /** `((?:[^"\\]|\\.)*)"` from index `j`: the index of the closing quote, or `None`
      when the text ends first or a backslash is followed by a line terminator. */
  function ContentEnd(s: string, j: nat): (r: Option<nat>)
    ensures r.Some? ==> j <= r.value < |s| && s[r.value] == '"'
    decreases |s| - j
  {
    if j >= |s| then None
    else if s[j] == '"' then Some(j)
    else if s[j] == '\\' then
      if j + 1 < |s| && !IsLineTerminator(s[j + 1]) then ContentEnd(s, j + 2) else None
    else ContentEnd(s, j + 1)
  }

  /** A match at the start of the text: its captured content and its length. */
  datatype Head = Head(content: string, len: nat)

  /** The pattern anchored at index 0 of `s`. */
  function MatchHead(s: string): (r: Option<Head>)
    ensures r.Some? ==> StartsWith(s, Key) && |Key| + 2 <= r.value.len <= |s|
    ensures r.Some? ==> s[r.value.len - 1] == '"'
  {
    if StartsWith(s, Key) then
      var q := SkipSpace(s, |Key|);
      if q < |s| && s[q] == '"' then
        match ContentEnd(s, q + 1)
        case Some(e) => Some(Head(s[q + 1..e], e + 1))
        case None => None
      else None
    else None
  }

  /** A match found by a search: how many characters precede it, its content, its length. */
  datatype Hit = Hit(skip: nat, content: string, len: nat)

  /** The leftmost match in `s`. */
  function Find(s: string): (r: Option<Hit>)
    ensures r.Some? ==> r.value.skip + r.value.len <= |s|
    decreases |s|
  {
    if |s| == 0 then None
    else match MatchHead(s)
      case Some(h) => Some(Hit(0, h.content, h.len))
      case None =>
        match Find(s[1..])
        case None => None
        case Some(h) => Some(Hit(h.skip + 1, h.content, h.len))
  }

  /** What `Find` returns is a match of the pattern at the offset it reports. */
  lemma {:induction false} FindSound(s: string)
    requires Find(s).Some?
    ensures MatchHead(s[Find(s).value.skip..]) == Some(Head(Find(s).value.content, Find(s).value.len))
    decreases |s|
  {
    if MatchHead(s).None? {
      FindSound(s[1..]);
      assert s[1..][Find(s[1..]).value.skip..] == s[Find(s).value.skip..];
    }
  }

  /** `Find` returns the leftmost match, and `None` only when there is no match at all. */
  lemma {:induction false} FindLeftmost(s: string, k: nat)
    requires k <= |s|
    ensures Find(s).None? ==> MatchHead(s[k..]).None?
    ensures Find(s).Some? && k < Find(s).value.skip ==> MatchHead(s[k..]).None?
    decreases |s|
  {
    if |s| == 0 || k == 0 {
      assert s[k..] == s;
    } else if MatchHead(s).None? {
      var rest := Find(s[1..]);
      assert Find(s) == (if rest.None? then None else Some(Hit(rest.value.skip + 1, rest.value.content, rest.value.len)));
      assert s[k..] == s[1..][k - 1..];
      FindLeftmost(s[1..], k - 1);
    }
  }

  // ---- The pattern only looks at the text up to the closing quote ----

  lemma {:induction false} ContentEndExtend(s: string, c: string, j: nat)
    requires ContentEnd(s, j).Some?
    ensures ContentEnd(s + c, j) == ContentEnd(s, j)
    decreases |s| - j
  {
    if s[j] != '"' {
      if s[j] == '\\' { ContentEndExtend(s, c, j + 2); } else { ContentEndExtend(s, c, j + 1); }
    }
  }

  lemma {:induction false} ContentEndRestrict(s: string, c: string, j: nat)
    requires ContentEnd(s + c, j).Some? && ContentEnd(s + c, j).value < |s|
    ensures ContentEnd(s, j) == ContentEnd(s + c, j)
    decreases |s| - j
  {
    var x := s + c;
    if x[j] != '"' {
      if x[j] == '\\' { ContentEndRestrict(s, c, j + 2); } else { ContentEndRestrict(s, c, j + 1); }
    }
  }

  /** Inside the captured content every quote is the second character of a `\"` escape. */
  lemma {:induction false} QuoteInsideContentIsEscaped(s: string, j: nat, k: nat)
    requires ContentEnd(s, j).Some? && j <= k < ContentEnd(s, j).value && s[k] == '"'
    ensures j < k && s[k - 1] == '\\'
    decreases |s| - j
  {
    if s[j] == '\\' {
      if k > j + 1 { QuoteInsideContentIsEscaped(s, j + 2, k); }
    } else {
      QuoteInsideContentIsEscaped(s, j + 1, k);
    }
  }

  lemma {:induction false} SkipSpaceExtend(s: string, c: string, j: nat)
    requires j <= |s| && SkipSpace(s, j) < |s|
    ensures SkipSpace(s + c, j) == SkipSpace(s, j)
    decreases |s| - j
  {
    if IsSpace(s[j]) { SkipSpaceExtend(s, c, j + 1); }
  }

  lemma {:induction false} SkipSpaceRestrict(s: string, c: string, j: nat)
    requires j <= |s| && SkipSpace(s + c, j) < |s|
    ensures SkipSpace(s, j) == SkipSpace(s + c, j)
    decreases |s| - j
  {
    if IsSpace(s[j]) { SkipSpaceRestrict(s, c, j + 1); }
  }

  /** A match at the start of a text is unaffected by what follows it. */
  lemma MatchHeadExtend(s: string, c: string)
    requires MatchHead(s).Some?
    ensures MatchHead(s + c) == MatchHead(s)
  {
    var x := s + c;
    assert x[..|Key|] == s[..|Key|];
    var q := SkipSpace(s, |Key|);
    SkipSpaceExtend(s, c, |Key|);
    ContentEndExtend(s, c, q + 1);
    var e := ContentEnd(s, q + 1).value;
    assert x[q + 1..e] == s[q + 1..e];
  }

  /** A match that ends within a prefix of the text is a match of that prefix. */
  lemma MatchHeadRestrict(s: string, c: string)
    requires MatchHead(s + c).Some? && MatchHead(s + c).value.len <= |s|
    ensures MatchHead(s) == MatchHead(s + c)
  {
    var x := s + c;
    assert x[..|Key|] == s[..|Key|];
    var q := SkipSpace(x, |Key|);
    SkipSpaceRestrict(s, c, |Key|);
    ContentEndRestrict(s, c, q + 1);
    var e := ContentEnd(x, q + 1).value;
    assert x[q + 1..e] == s[q + 1..e];
  }

  /** No match can start strictly inside a match that is still open at index `n`:
      the key, the white space and the content of a match contain no `"text":`. */
  lemma NoKeyInsideOpenMatch(x: string, n: nat, p: nat)
    requires MatchHead(x).Some? && n < MatchHead(x).value.len
    requires 1 <= p && p + |Key| <= n
    ensures !StartsWith(x[p..], Key)
  {
    if StartsWith(x[p..], Key) {
      assert x[p] == '"' && x[p + 4] == 't' && x[p + 5] == '"';
      var q := SkipSpace(x, |Key|);
      if p >= q {
        QuoteInsideContentIsEscaped(x, q + 1, p + 5);
      }
    }
  }

  /** A match found in a buffer is still the leftmost match once more text arrives:
      a match starting earlier would have to enclose it. */
  lemma {:induction false} FindExtend(s: string, c: string)
    requires Find(s).Some?
    ensures Find(s + c) == Find(s)
    decreases |s|
  {
    if MatchHead(s).Some? {
      MatchHeadExtend(s, c);
    } else {
      var t := s[1..];
      NoMatchEnclosing(s, t, c);
      FindExtend(t, c);
      FindAfterFirst(s, t, c);
    }
  }

  /** When the search fails at index 0 but succeeds later, extending the text does
      not create a match at index 0. */
  lemma NoMatchEnclosing(s: string, t: string, c: string)
    requires |s| > 0 && t == s[1..] && MatchHead(s).None? && Find(t).Some?
    ensures MatchHead(s + c).None?
  {
    var x := s + c;
    if MatchHead(x).Some? {
      if MatchHead(x).value.len <= |s| {
        MatchHeadRestrict(s, c);
      } else {
        var h := Find(t).value;
        FindSound(t);
        KeyCarriesOver(s, t, c, h.skip);
        NoKeyInsideOpenMatch(x, |s|, h.skip + 1);
      }
    }
  }

  /** A key that starts at index `k` of `s[1..]` starts at index `k + 1` of `s + c`. */
  lemma KeyCarriesOver(s: string, t: string, c: string, k: nat)
    requires |s| > 0 && t == s[1..] && k <= |t| && StartsWith(t[k..], Key)
    ensures StartsWith((s + c)[k + 1..], Key)
  {
    assert (s + c)[k + 1..][..|Key|] == t[k..][..|Key|];
  }

  /** `Find` on `s + c` when neither `s` nor `s + c` matches at index 0. */
  lemma FindAfterFirst(s: string, t: string, c: string)
    requires |s| > 0 && t == s[1..] && MatchHead(s).None? && MatchHead(s + c).None?
    requires Find(t + c) == Find(t)
    ensures Find(s + c) == Find(s)
  {
    DropFacts(s, c, 1, 0);
    FindShift(s, t);
    FindShift(s + c, t + c);
  }

  /** `Find` on a text that does not match at index 0 is the search from index 1, shifted. */
  lemma FindShift(u: string, v: string)
    requires |u| > 0 && v == u[1..] && MatchHead(u).None?
    ensures Find(u) == if Find(v).None? then None
      else Some(Hit(Find(v).value.skip + 1, Find(v).value.content, Find(v).value.len))
  {}

  /** A search for the pattern, as `RegExp.prototype.exec` performs it. */
  type Finder = string -> Option<Hit>

  /** A search that reports matches lying inside the text and of positive extent. */
  ghost predicate Advances(find: Finder) {
    forall s :: find(s).Some? ==> 0 < find(s).value.skip + find(s).value.len <= |s|
  }

  /** A search whose result, once found, does not change when the text grows. */
  ghost predicate Stable(find: Finder) {
    forall s, c :: find(s).Some? ==> find(s + c) == find(s)
  }

  lemma FindAdvances()
    ensures Advances(Find)
  {
    forall s | Find(s).Some?
      ensures 0 < Find(s).value.skip + Find(s).value.len <= |s|
    {
      FindSound(s);
    }
  }

  lemma FindStable()
    ensures Stable(Find)
  {
    forall s, c | Find(s).Some?
      ensures Find(s + c) == Find(s)
    {
      FindExtend(s, c);
    }
  }

  /** The scan the extension performs on a text: the pattern search `Find`, and
      `JSON.parse` of the quoted content as `JsonString.Unescape`. */
  function Extract(s: string): PassResult {
    FindAdvances();
    Pass(s, Find, JsonString.Unescape)
  }

  /** The outcome of one scan of the buffer: the deltas yielded, and the end of the
      last match whose content parsed (0 when none did), where the buffer is cut. */
  datatype PassResult = PassResult(deltas: seq<string>, consumed: nat)

  /** What a match yields: its decoded content when that is non-empty. */
  function Emit(t: string): seq<string> {
    if t != "" then [t] else []
  }

  /** The scan of one buffer with the search `find` and the content decoder `decode`
      (`Find` and `JsonString.Unescape` in the extension): every successive match,
      decoded; a match whose content does not parse is skipped and does not move the cut. */
  function Pass(s: string, find: Finder, decode: string -> Option<string>): (r: PassResult)
    requires Advances(find)
    ensures r.consumed <= |s|
    ensures r.consumed == 0 ==> r.deltas == []
    decreases |s|
  {
    match find(s)
    case None => PassResult([], 0)
    case Some(h) => Combine(h.skip + h.len, decode(h.content), Pass(s[h.skip + h.len..], find, decode))
  }

  /** A match ending at `end` whose content decodes to `parsed`, followed by the scan
      `rest` of the text after it. */
  function Combine(end: nat, parsed: Option<string>, rest: PassResult): PassResult {
    match parsed
    case None => PassResult(rest.deltas, if rest.consumed > 0 then end + rest.consumed else 0)
    case Some(t) => PassResult(Emit(t) + rest.deltas, end + rest.consumed)
  }

  /** Scanning a buffer and later rescanning it, cut after its last parsed match and
      extended by new text, yields what one scan of all the text yields. */
  lemma {:induction false} PassExtend(b: string, c: string, find: Finder, decode: string -> Option<string>)
    requires Advances(find) && Stable(find)
    ensures Pass(b + c, find, decode).deltas ==
      Pass(b, find, decode).deltas + Pass(b[Pass(b, find, decode).consumed..] + c, find, decode).deltas
    decreases |b|
  {
    if find(b).None? {
      CutTail(b, c, 0, 0, Pass(b, find, decode).consumed);
      assert [] + Pass(b + c, find, decode).deltas == Pass(b + c, find, decode).deltas;
    } else {
      var h := find(b).value;
      var end := h.skip + h.len;
      assert find(b + c) == find(b);
      PassExtend(b[end..], c, find, decode);
      PassExtendStep(b, c, find, decode);
    }
  }

  /** The inductive step of `PassExtend`, for a text where the search succeeds. */
  lemma PassExtendStep(b: string, c: string, find: Finder, decode: string -> Option<string>)
    requires Advances(find) && find(b).Some? && find(b + c) == find(b)
    requires var end := find(b).value.skip + find(b).value.len;
      Pass(b[end..] + c, find, decode).deltas ==
      Pass(b[end..], find, decode).deltas + Pass(b[end..][Pass(b[end..], find, decode).consumed..] + c, find, decode).deltas
    ensures Pass(b + c, find, decode).deltas ==
      Pass(b, find, decode).deltas + Pass(b[Pass(b, find, decode).consumed..] + c, find, decode).deltas
  {
    var h := find(b).value;
    var end := h.skip + h.len;
    var r := Pass(b[end..], find, decode);
    var k := r.consumed;
    var t := Pass(b[end..][k..] + c, find, decode).deltas;
    var p := Pass(b, find, decode);
    var whole := Pass(b + c, find, decode);
    var x := Pass(b[p.consumed..] + c, find, decode);
    UnfoldBoth(b, c, find, decode);
    if p.consumed == end + k {
      CutTail(b, c, end, k, p.consumed);
    } else if p.consumed == 0 {
      CutTail(b, c, 0, 0, p.consumed);
    }
    Assemble(end, decode(h.content), r, Pass(b[end..] + c, find, decode), t, x);
  }

  /** The arithmetic of `PassExtendStep`: the scans of a text and of its extension
      around one match, from the scans after it. `x` is the rescan after the cut. */
  lemma Assemble(end: nat, parsed: Option<string>, r: PassResult, w: PassResult, t: seq<string>, x: PassResult)
    requires w.deltas == r.deltas + t
    requires r.consumed == 0 ==> r.deltas == []
    requires Combine(end, parsed, r).consumed == end + r.consumed ==> x.deltas == t
    requires Combine(end, parsed, r).consumed == 0 ==> x == Combine(end, parsed, w)
    ensures Combine(end, parsed, w).deltas == Combine(end, parsed, r).deltas + x.deltas
  {
    if parsed.Some? {
      AppendAssoc(Emit(parsed.value), r.deltas, t);
    }
  }

  /** `Pass` unfolded once on a text and on its extension, which share their first match. */
  lemma UnfoldBoth(b: string, c: string, find: Finder, decode: string -> Option<string>)
    requires Advances(find) && find(b).Some? && find(b + c) == find(b)
    ensures var h := find(b).value; var end := h.skip + h.len;
      && Pass(b, find, decode) == Combine(end, decode(h.content), Pass(b[end..], find, decode))
      && Pass(b + c, find, decode) == Combine(end, decode(h.content), Pass(b[end..] + c, find, decode))
  {
    var h := find(b).value;
    DropFacts(b, c, h.skip + h.len, 0);
    PassOnMatch(b, find, decode);
    PassOnMatch(b + c, find, decode);
  }

  /** What is left after the cut holds no match whose content parses. */
  lemma {:induction false} PassTail(b: string, find: Finder, decode: string -> Option<string>)
    requires Advances(find)
    ensures Pass(b[Pass(b, find, decode).consumed..], find, decode).consumed == 0
    decreases |b|
  {
    if find(b).None? {
      assert b[0..] == b;
    } else {
      var h := find(b).value;
      var end := h.skip + h.len;
      var k := Pass(b[end..], find, decode).consumed;
      PassTail(b[end..], find, decode);
      PassOnMatch(b, find, decode);
      var cut := Pass(b, find, decode).consumed;
      if cut == 0 {
        assert b[cut..] == b;
      } else {
        assert cut == end + k;
        DropFacts(b, "", end, k);
        assert b[cut..] == b[end..][k..];
      }
    }
  }

  /** One unfolding of `Pass` on a text where the search succeeds. */
  lemma PassOnMatch(s: string, find: Finder, decode: string -> Option<string>)
    requires Advances(find) && find(s).Some?
    ensures var h := find(s).value; var end := h.skip + h.len;
      Pass(s, find, decode) == Combine(end, decode(h.content), Pass(s[end..], find, decode))
  {}

  lemma ConcatFirst(buffer: string, unread: seq<string>)
    requires |unread| > 0
    ensures buffer + Concat(unread) == (buffer + unread[0]) + Concat(unread[1..])
  {
    ConcatCons(unread);
    AppendAssoc(buffer, unread[0], Concat(unread[1..]));
  }

  /** The text after a cut at `end + k`, extended by `c`. */
  lemma CutTail<T>(b: seq<T>, c: seq<T>, end: nat, k: nat, cut: nat)
    requires cut == end + k <= |b|
    ensures b[cut..] + c == b[end..][k..] + c
    ensures end == 0 ==> b[cut..] + c == b[k..] + c
  {}

  lemma DropFacts<T>(b: seq<T>, c: seq<T>, end: nat, k: nat)
    requires end + k <= |b|
    ensures (b + c)[end..] == b[end..] + c
    ensures b[end..][k..] == b[end + k..]
    ensures b[0..] == b
  {}

  /** The inner `while ((match = regex.exec(buffer)) !== null)` loop over one buffer.
      `pos` plays the part of `regex.lastIndex` and `rest` is the text from there on. */
  method ScanBuffer(buffer: string, find: Finder, decode: string -> Option<string>)
      returns (deltas: seq<string>, lastIndex: nat)
    requires Advances(find)
    ensures PassResult(deltas, lastIndex) == Pass(buffer, find, decode)
  {
    ghost var total := Pass(buffer, find, decode);
    deltas, lastIndex := [], 0;
    var pos := 0;
    var rest := buffer;
    while true
      invariant pos + |rest| == |buffer|
      invariant total.deltas == deltas + Pass(rest, find, decode).deltas
      invariant total.consumed ==
        (if Pass(rest, find, decode).consumed > 0 then pos + Pass(rest, find, decode).consumed else lastIndex)
      decreases |rest|
    {
      var found := find(rest);
      if found.None? {
        assert deltas + [] == deltas;
        return;
      }
      var h := found.value;
      var next := rest[h.skip + h.len..];
      var deltas', lastIndex' := deltas, lastIndex;
      if decode(h.content).Some? {
        deltas', lastIndex' := deltas + Emit(decode(h.content).value), pos + h.skip + h.len;
      }
      ScanStep(rest, next, pos, deltas, lastIndex, deltas', lastIndex', total, find, decode);
      deltas, lastIndex, pos, rest := deltas', lastIndex', pos + h.skip + h.len, next;
    }
  }

  /** One iteration of `ScanBuffer` keeps its invariant. */
  lemma ScanStep(x: string, r: string, pos: nat, deltas: seq<string>, lastIndex: nat,
                 deltas': seq<string>, lastIndex': nat, total: PassResult,
                 find: Finder, decode: string -> Option<string>)
    requires Advances(find) && find(x).Some?
    requires r == x[find(x).value.skip + find(x).value.len..]
    requires total.deltas == deltas + Pass(x, find, decode).deltas
    requires total.consumed ==
      (if Pass(x, find, decode).consumed > 0 then pos + Pass(x, find, decode).consumed else lastIndex)
    requires var h := find(x).value;
      if decode(h.content).Some? then deltas' == deltas + Emit(decode(h.content).value) && lastIndex' == pos + h.skip + h.len
      else deltas' == deltas && lastIndex' == lastIndex
    ensures var end := pos + find(x).value.skip + find(x).value.len;
      total.deltas == deltas' + Pass(r, find, decode).deltas &&
      total.consumed == (if Pass(r, find, decode).consumed > 0 then end + Pass(r, find, decode).consumed else lastIndex')
  {
    var h := find(x).value;
    PassOnMatch(x, find, decode);
    if decode(h.content).Some? {
      AppendAssoc(deltas, Emit(decode(h.content).value), Pass(r, find, decode).deltas);
    }
  }

  /** One read: the scan of the buffer plus the new read, followed by the scan of the
      rest, is the scan of the buffer followed by everything unread. */
  lemma ReadStep(deltas: seq<string>, buffer: string, unread: seq<string>, text: string, total: seq<string>,
                 find: Finder, decode: string -> Option<string>)
    requires Advances(find) && Stable(find)
    requires |unread| > 0 && text == buffer + unread[0]
    requires deltas + Pass(buffer + Concat(unread), find, decode).deltas == total
    ensures (deltas + Pass(text, find, decode).deltas) +
      Pass(text[Pass(text, find, decode).consumed..] + Concat(unread[1..]), find, decode).deltas == total
    ensures Pass(text[Pass(text, find, decode).consumed..], find, decode).consumed == 0
  {
    ConcatFirst(buffer, unread);
    PassExtend(text, Concat(unread[1..]), find, decode);
    PassTail(text, find, decode);
    AppendAssoc(deltas, Pass(text, find, decode).deltas,
      Pass(text[Pass(text, find, decode).consumed..] + Concat(unread[1..]), find, decode).deltas);
  }

  /** The read loop of `streamGemini` for a given search and decoder. */
  method StreamWith(body: Option<Body>, find: Finder, decode: string -> Option<string>) returns (run: ParserRun)
    requires Advances(find) && Stable(find)
    ensures body.None? ==> run == ParserRun(NoBody, 0)
    ensures body.Some? ==> run.releases == 1
    ensures body.Some? ==>
      run.out == Emission(Pass(Concat(body.value.chunks), find, decode).deltas, body.value.fault)
  {
    if body.None? {
      return ParserRun(NoBody, 0);
    }
    var chunks := body.value.chunks;
    ghost var total := Pass(Concat(chunks), find, decode).deltas;
    var buffer := "";
    var deltas: seq<string> := [];
    var i := 0;
    assert buffer + Concat(chunks[i..]) == Concat(chunks) by { assert chunks[i..] == chunks; }
    while i < |chunks|
      invariant 0 <= i <= |chunks|
      invariant deltas + Pass(buffer + Concat(chunks[i..]), find, decode).deltas == total
      invariant Pass(buffer, find, decode).consumed == 0
    {
      var text := buffer + chunks[i];
      var more, lastIndex := ScanBuffer(text, find, decode);
      StreamStep(deltas, buffer, chunks, i, more, lastIndex, total, find, decode);
      buffer := if lastIndex > 0 then text[lastIndex..] else text;
      assert buffer == text[lastIndex..];
      deltas := deltas + more;
      i := i + 1;
    }
    assert chunks[i..] == [];
    assert buffer + Concat(chunks[i..]) == buffer;
    var releases := 1;
    run := ParserRun(Emission(deltas, body.value.fault), releases);
  }

  /** One turn of the read loop of `StreamWith` keeps its invariant. */
  lemma StreamStep(deltas: seq<string>, buffer: string, chunks: seq<string>, i: nat,
                   more: seq<string>, lastIndex: nat, total: seq<string>,
                   find: Finder, decode: string -> Option<string>)
    requires Advances(find) && Stable(find)
    requires i < |chunks|
    requires deltas + Pass(buffer + Concat(chunks[i..]), find, decode).deltas == total
    requires PassResult(more, lastIndex) == Pass(buffer + chunks[i], find, decode)
    ensures var text := buffer + chunks[i];
      && (deltas + more) + Pass(text[lastIndex..] + Concat(chunks[i + 1..]), find, decode).deltas == total
      && Pass(text[lastIndex..], find, decode).consumed == 0
  {
    ReadStep(deltas, buffer, chunks[i..], buffer + chunks[i], total, find, decode);
    assert chunks[i..][1..] == chunks[i + 1..];
  }

  /** `streamGemini`: scans after every read, cuts the buffer, and releases the reader
      once on every exit. Its output is the scan of all the text at once: a field
      divided between reads is yielded once, when its closing quote arrives. */
  method Stream(body: Option<Body>) returns (run: ParserRun)
    ensures body.None? ==> run == ParserRun(NoBody, 0)
    ensures body.Some? ==> run.releases == 1
    ensures body.Some? ==> run.out == Emission(Extract(Concat(body.value.chunks)).deltas, body.value.fault)
  {
    FindAdvances();
    FindStable();
    run := StreamWith(body, Find, JsonString.Unescape);
  }

  // ---- A reference text: the fields `JSON.stringify` writes ----

  /** One `"text"` field as a streamed response carries it: the key, a space, the
      quoted escaped value, and a closing brace. */
  function Field(v: string): string {
    Key + " \"" + JsonString.Escape(v) + "\"}"
  }

  /** A response made of the given fields, in order. */
  function Fields(vs: seq<string>): string
    decreases |vs|
  {
    if |vs| == 0 then "" else Field(vs[0]) + Fields(vs[1..])
  }

  /** The values that are not empty, in order. */
  function NonEmpty(vs: seq<string>): (r: seq<string>)
    ensures forall t :: t in r ==> t in vs && t != ""
    decreases |vs|
  {
    if |vs| == 0 then [] else Emit(vs[0]) + NonEmpty(vs[1..])
  }

  lemma HexDigitIsPlain(n: nat)
    requires n < 16
    ensures JsonString.HexDigit(n) != '"' && JsonString.HexDigit(n) != '\\'
  {
    assert JsonString.HexValue('"') == None;
    assert JsonString.HexValue('\\') == None;
  }

  /** The closing-quote search steps over one escaped character. */
  lemma ContentEndSkipsChar(s: string, j: nat, c: char)
    requires j + |JsonString.EscapeChar(c)| <= |s|
    requires s[j..j + |JsonString.EscapeChar(c)|] == JsonString.EscapeChar(c)
    ensures ContentEnd(s, j) == ContentEnd(s, j + |JsonString.EscapeChar(c)|)
  {
    var e := JsonString.EscapeChar(c);
    forall k | 0 <= k < |e|
      ensures s[j + k] == e[k]
    {
      assert s[j..j + |e|][k] == s[j + k];
    }
    if c == '"' || c == '\\' || c == '\U{0008}' || c == '\t' || c == '\n' || c == '\U{000C}' || c == '\r' {
      assert |e| == 2 && e[0] == '\\' && !IsLineTerminator(e[1]);
    } else if c < ' ' {
      var n := c as nat;
      HexDigitIsPlain(n / 16);
      HexDigitIsPlain(n % 16);
      assert e == "\\u00" + [JsonString.HexDigit(n / 16), JsonString.HexDigit(n % 16)];
      assert |e| == 6 && e[0] == '\\' && e[1] == 'u' && e[2] == '0' && e[3] == '0';
      assert e[4] == JsonString.HexDigit(n / 16) && e[5] == JsonString.HexDigit(n % 16);
      assert ContentEnd(s, j + 4) == ContentEnd(s, j + 5) == ContentEnd(s, j + 6);
      assert ContentEnd(s, j + 2) == ContentEnd(s, j + 3) == ContentEnd(s, j + 4);
    } else {
      assert e == [c];
    }
  }

  /** The closing-quote search steps over a whole escaped string. */
  lemma {:induction false} ContentEndSkipsText(s: string, j: nat, v: string)
    requires j + |JsonString.Escape(v)| <= |s|
    requires s[j..j + |JsonString.Escape(v)|] == JsonString.Escape(v)
    ensures ContentEnd(s, j) == ContentEnd(s, j + |JsonString.Escape(v)|)
    decreases |v|
  {
    if |v| > 0 {
      var e := JsonString.EscapeChar(v[0]);
      var rest := JsonString.Escape(v[1..]);
      assert JsonString.Escape(v) == e + rest;
      SliceSplit(s, j, e, rest);
      ContentEndSkipsChar(s, j, v[0]);
      ContentEndSkipsText(s, j + |e|, v[1..]);
    }
  }

  /** A slice holding `a + b` holds `a`, then `b`. */
  lemma SliceSplit(s: string, j: nat, a: string, b: string)
    requires j + |a + b| <= |s| && s[j..j + |a + b|] == a + b
    ensures s[j..j + |a|] == a && s[j + |a|..j + |a| + |b|] == b
  {
    assert s[j..j + |a|] == s[j..j + |a + b|][..|a|];
    assert s[j + |a|..j + |a| + |b|] == s[j..j + |a + b|][|a|..];
  }

  /** Where the parts of a field lie in a text that starts with it. */
  lemma FieldLayout(v: string, rest: string)
    ensures var e := JsonString.Escape(v); var x := Field(v) + rest;
      |x| == |Key| + 4 + |e| + |rest| &&
      x[..|Key|] == Key && x[7] == ' ' && x[8] == '"' &&
      x[9..9 + |e|] == e && x[9 + |e|] == '"' && x[10 + |e|..] == "}" + rest
  {
    var e := JsonString.Escape(v);
    var a := Key + " \"";
    var x := Field(v) + rest;
    assert |a| == 9 && a[..|Key|] == Key && a[7] == ' ' && a[8] == '"';
    QuotedLayout(a, e, rest);
    assert x[..|Key|] == x[..9][..|Key|];
  }

  /** Where the parts lie in a text made of a head, a quoted value and a brace. */
  lemma QuotedLayout(a: string, e: string, rest: string)
    ensures var x := a + e + "\"}" + rest;
      |x| == |a| + |e| + 2 + |rest| &&
      x[..|a|] == a && x[|a|..|a| + |e|] == e && x[|a| + |e|] == '"' && x[|a| + |e| + 1..] == "}" + rest
  {
    var x := a + e + "\"}" + rest;
    var tail := e + ("\"}" + rest);
    assert x == a + tail;
    assert x[|a|..] == tail;
    assert tail[..|e|] == e && tail[|e|] == '"' && tail[|e| + 1..] == "}" + rest;
  }

  /** The pattern matches a field at its start and captures the escaped value. */
  lemma MatchHeadField(v: string, rest: string)
    ensures MatchHead(Field(v) + rest) ==
      Some(Head(JsonString.Escape(v), |Key| + 3 + |JsonString.Escape(v)|))
  {
    var e := JsonString.Escape(v);
    var x := Field(v) + rest;
    FieldLayout(v, rest);
    assert SkipSpace(x, 7) == 8;
    ContentEndSkipsText(x, 9, v);
  }

  /** A text that does not match at index 0 yields what its remainder yields. */
  lemma ExtractSkipsFirst(x: string)
    requires |x| > 0 && MatchHead(x).None?
    ensures Extract(x).deltas == Extract(x[1..]).deltas
  {
    FindAdvances();
    FindShift(x, x[1..]);
    if Find(x[1..]).Some? {
      var h := Find(x[1..]).value;
      PassOnMatch(x, Find, JsonString.Unescape);
      PassOnMatch(x[1..], Find, JsonString.Unescape);
      DropFacts(x, "", 1, h.skip + h.len);
    }
  }

  /** A field yields its value (when non-empty), then the scan goes on after it. */
  lemma ExtractField(v: string, rest: string)
    ensures Extract(Field(v) + rest).deltas == Emit(v) + Extract(rest).deltas
  {
    var e := JsonString.Escape(v);
    var x := Field(v) + rest;
    FieldLayout(v, rest);
    MatchHeadField(v, rest);
    assert Find(x) == Some(Hit(0, e, |Key| + 3 + |e|));
    JsonString.EscapeRoundTrip(v);
    ExtractHit(x, e, v, |Key| + 3 + |e|, rest);
  }

  /** A match at index 0 whose content decodes to `v`, followed by `}`. */
  lemma ExtractHit(x: string, e: string, v: string, n: nat, rest: string)
    requires Find(x) == Some(Hit(0, e, n)) && JsonString.Unescape(e) == Some(v)
    requires n <= |x| && x[n..] == "}" + rest
    ensures Extract(x).deltas == Emit(v) + Extract(rest).deltas
  {
    FindAdvances();
    PassHit(x, Find, JsonString.Unescape, e, v, n, "}" + rest);
    ExtractSkipsBrace(rest);
  }

  /** The scan of a text whose first match starts at index 0 and decodes to `v`. */
  lemma PassHit(x: string, find: Finder, decode: string -> Option<string>, e: string, v: string, n: nat, tail: string)
    requires Advances(find) && find(x) == Some(Hit(0, e, n)) && decode(e) == Some(v)
    requires n <= |x| && tail == x[n..]
    ensures Pass(x, find, decode).deltas == Emit(v) + Pass(tail, find, decode).deltas
  {
    PassOnMatch(x, find, decode);
  }

  /** The closing brace of a field holds no match. */
  lemma ExtractSkipsBrace(rest: string)
    ensures Extract("}" + rest).deltas == Extract(rest).deltas
  {
    var t := "}" + rest;
    assert t[0] == '}' && t[1..] == rest;
    ExtractSkipsFirst(t);
  }

  /** Scanning a response made of fields yields exactly the non-empty values, in
      order; by `Stream`, so does every division of it into reads. */
  lemma {:induction false} ExtractFields(vs: seq<string>)
    ensures Extract(Fields(vs)).deltas == NonEmpty(vs)
    decreases |vs|
  {
    FindAdvances();
    if |vs| == 0 {
      assert Find("").None?;
    } else {
      ExtractField(vs[0], Fields(vs[1..]));
      ExtractFields(vs[1..]);
    }
  }
}
