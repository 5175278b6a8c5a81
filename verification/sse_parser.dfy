/**
 * The line-buffered parser for the event streams of the bearer-token chat backends
 * (`streamSSE` in src/services/llm.ts). It keeps the unterminated tail of the text
 * read so far, handles every newline-terminated line, stops at the `[DONE]`
 * sentinel, and yields the `choices[0].delta.content` of each `data: ` line.
 *
 * `JSON.parse` followed by the optional-chained field access is the parameter
 * `deltaContent`: `None` stands for malformed JSON or an absent field.
 */
module SseParser {
  import opened Wrappers
  import opened Strings
  import opened Streams
  import Seqs

  const DataPrefix: string := "data: "
  const DoneLine: string := "data: [DONE]"

  /** What one complete line contributes. */
  datatype LineEffect = Ignore | Yield(delta: string) | Finish

  function Classify(line: string, deltaContent: string -> Option<string>): (r: LineEffect)
    ensures r == Finish <==> Trim(line) == DoneLine
    ensures !StartsWith(Trim(line), DataPrefix) ==> r == Ignore
    ensures r.Yield? <==>
      && StartsWith(Trim(line), DataPrefix) && Trim(line) != DoneLine
      && deltaContent(Trim(line)[|DataPrefix|..]).Some?
      && deltaContent(Trim(line)[|DataPrefix|..]).value != ""
    ensures r.Yield? ==> r.delta == deltaContent(Trim(line)[|DataPrefix|..]).value
  {
    var t := Trim(line);
    if t == "" then Ignore
    else if t == DoneLine then Finish
    else if StartsWith(t, DataPrefix) then
      match deltaContent(t[|DataPrefix|..])
      case Some(c) => if c != "" then Yield(c) else Ignore
      case None => Ignore
    else Ignore
  }

  /** The result of handling a list of complete lines: the deltas yielded and whether
      the sentinel ended the stream. */
  datatype Scan = Scan(deltas: seq<string>, done: bool)

  /** Handles `lines` in order; after the sentinel nothing more is looked at. */
  function ScanLines(lines: seq<string>, deltaContent: string -> Option<string>): Scan
    decreases |lines|
  {
    if |lines| == 0 then Scan([], false)
    else
      Next(ScanLines(lines[..|lines| - 1], deltaContent), Classify(lines[|lines| - 1], deltaContent))
  }

  /** Handles one more line after the outcome `p`. */
  function Next(p: Scan, e: LineEffect): Scan {
    if p.done then p
    else match e
      case Ignore => p
      case Finish => Scan(p.deltas, true)
      case Yield(d) => Scan(p.deltas + [d], false)
  }

  /** The outcome `q` of later lines, following the outcome `p` of earlier ones. */
  function Then(p: Scan, q: Scan): Scan {
    if p.done then p else Scan(p.deltas + q.deltas, q.done)
  }

  /** Handling one more line commutes with following an earlier outcome. */
  lemma ThenNext(p: Scan, q: Scan, e: LineEffect)
    ensures Next(Then(p, q), e) == Then(p, Next(q, e))
  {
    if !p.done && !q.done && e.Yield? {
      assert (p.deltas + q.deltas) + [e.delta] == p.deltas + (q.deltas + [e.delta]);
    }
  }

  /** Handling two lists of lines in turn is handling their concatenation. */
  lemma {:induction false} ScanAppend(a: seq<string>, b: seq<string>, deltaContent: string -> Option<string>)
    ensures ScanLines(a + b, deltaContent) == Then(ScanLines(a, deltaContent), ScanLines(b, deltaContent))
    decreases |b|
  {
    if |b| == 0 {
      assert a + b == a;
      assert ScanLines(a, deltaContent).deltas + [] == ScanLines(a, deltaContent).deltas;
    } else {
      var init, last := b[..|b| - 1], b[|b| - 1];
      assert (a + b)[..|a + b| - 1] == a + init;
      assert (a + b)[|a + b| - 1] == last;
      ScanAppend(a, init, deltaContent);
      ThenNext(ScanLines(a, deltaContent), ScanLines(init, deltaContent), Classify(last, deltaContent));
    }
  }

  /** The specification the parser meets: the outcome of handling every complete line
      of the whole text, whatever its division into chunks. */
  function Reference(text: string, deltaContent: string -> Option<string>): Scan {
    ScanLines(CompleteLines(text), deltaContent)
  }

  /** Reading more text extends the reference outcome, and leaves it alone once the
      sentinel has been seen. */
  lemma ReferenceExtend(t: string, c: string, deltaContent: string -> Option<string>)
    ensures Reference(t + c, deltaContent) ==
      Then(Reference(t, deltaContent), ScanLines(CompleteLines(PendingLine(t) + c), deltaContent))
  {
    CompleteLinesAppend(t, c);
    ScanAppend(CompleteLines(t), CompleteLines(PendingLine(t) + c), deltaContent);
  }

  /** One more line handled. */
  lemma ScanPrefixStep(lines: seq<string>, j: nat, deltaContent: string -> Option<string>)
    requires j < |lines|
    ensures ScanLines(lines[..j + 1], deltaContent) ==
      Next(ScanLines(lines[..j], deltaContent), Classify(lines[j], deltaContent))
  {
    assert lines[..j + 1][..j] == lines[..j];
  }

  /** Once the sentinel has been seen, the remaining lines change nothing. */
  lemma {:induction false} ScanPrefixDone(lines: seq<string>, j: nat, deltaContent: string -> Option<string>)
    requires j <= |lines|
    requires ScanLines(lines[..j], deltaContent).done
    ensures ScanLines(lines, deltaContent) == ScanLines(lines[..j], deltaContent)
    decreases |lines| - j
  {
    if j == |lines| {
      assert lines[..j] == lines;
    } else {
      ScanPrefixStep(lines, j, deltaContent);
      ScanPrefixDone(lines, j + 1, deltaContent);
    }
  }

  /** The `for (const line of lines)` loop of one read: handles complete lines until
      the sentinel. */
  method HandleLines(lines: seq<string>, deltaContent: string -> Option<string>)
    returns (deltas: seq<string>, done: bool)
    ensures Scan(deltas, done) == ScanLines(lines, deltaContent)
  {
    deltas, done := [], false;
    var j := 0;
    while j < |lines| && !done
      invariant 0 <= j <= |lines|
      invariant ScanLines(lines[..j], deltaContent) == Scan(deltas, done)
    {
      ScanPrefixStep(lines, j, deltaContent);
      var next := Next(Scan(deltas, done), Classify(lines[j], deltaContent));
      deltas, done := next.deltas, next.done;
      j := j + 1;
    }
    if done {
      ScanPrefixDone(lines, j, deltaContent);
    } else {
      assert lines[..j] == lines;
    }
  }

  /** One read: the complete lines of the pending tail plus the new text extend the
      outcome so far, and the new tail is the pending line of all text read. */
  lemma ReadStep(t: string, c: string, deltaContent: string -> Option<string>)
    ensures Reference(t + c, deltaContent) ==
      Then(Reference(t, deltaContent), ScanLines(CompleteLines(PendingLine(t) + c), deltaContent))
    ensures PendingLine(PendingLine(t) + c) == PendingLine(t + c)
  {
    ReferenceExtend(t, c, deltaContent);
    CompleteLinesAppend(t, c);
  }

  /** The read of chunk `i`, stated over the chunks read so far. */
  lemma ReadChunk(chunks: seq<string>, i: nat, deltaContent: string -> Option<string>)
    requires i < |chunks|
    ensures Reference(Concat(chunks[..i + 1]), deltaContent) ==
      Then(Reference(Concat(chunks[..i]), deltaContent),
           ScanLines(CompleteLines(PendingLine(Concat(chunks[..i])) + chunks[i]), deltaContent))
    ensures PendingLine(PendingLine(Concat(chunks[..i])) + chunks[i]) == PendingLine(Concat(chunks[..i + 1]))
  {
    assert chunks[..i + 1][..i] == chunks[..i];
    assert Concat(chunks[..i + 1]) == Concat(chunks[..i]) + chunks[i];
    ReadStep(Concat(chunks[..i]), chunks[i], deltaContent);
  }

  /** Text read after the sentinel leaves the reference outcome alone. */
  lemma ReferenceDone(read: seq<string>, rest: seq<string>, deltaContent: string -> Option<string>)
    requires Reference(Concat(read), deltaContent).done
    ensures Reference(Concat(read + rest), deltaContent) == Reference(Concat(read), deltaContent)
  {
    ConcatAppend(read, rest);
    ReferenceExtend(Concat(read), Concat(rest), deltaContent);
  }

  /** Once the sentinel has been read, the chunks after it change nothing. */
  lemma ReadDone(chunks: seq<string>, i: nat, deltaContent: string -> Option<string>)
    requires i <= |chunks|
    requires Reference(Concat(chunks[..i]), deltaContent).done
    ensures Reference(Concat(chunks), deltaContent) == Reference(Concat(chunks[..i]), deltaContent)
  {
    Seqs.TakeDrop(chunks, i);
    ReferenceDone(chunks[..i], chunks[i..], deltaContent);
  }


  /** `streamSSE`: reads the body to its end, the sentinel, or a failing read, and
      releases the reader once on every one of those exits. */
  method Stream(body: Option<Body>, deltaContent: string -> Option<string>) returns (run: ParserRun)
    ensures body.None? ==> run == ParserRun(NoBody, 0)
    ensures body.Some? ==> run.releases == 1
    ensures body.Some? ==> run.out.deltas == Reference(Concat(body.value.chunks), deltaContent).deltas
    ensures body.Some? ==>
      run.out.failure == (if Reference(Concat(body.value.chunks), deltaContent).done then None else body.value.fault)
  {
    if body.None? {
      return ParserRun(NoBody, 0);
    }
    var chunks := body.value.chunks;
    var buffer := "";
    var deltas: seq<string> := [];
    var done := false;
    var i := 0;
    while i < |chunks| && !done
      invariant 0 <= i <= |chunks|
      invariant Reference(Concat(chunks[..i]), deltaContent) == Scan(deltas, done)
      invariant !done ==> buffer == PendingLine(Concat(chunks[..i]))
      decreases |chunks| - i
    {
      var lines := Split(buffer + chunks[i]);
      var more, finished := HandleLines(lines[..|lines| - 1], deltaContent);
      ReadChunk(chunks, i, deltaContent);
      buffer := lines[|lines| - 1];
      deltas, done := deltas + more, finished;
      i := i + 1;
    }
    if done {
      ReadDone(chunks, i, deltaContent);
    } else {
      assert chunks[..i] == chunks;
    }
    // the `finally` block: the reader is released whichever way the loop ended
    var releases := 1;
    run := ParserRun(Emission(deltas, if done then None else body.value.fault), releases);
  }

  /** The sentinel line ends the output: whatever follows it, in the same read or
      later ones, contributes nothing. */
  lemma SentinelEndsOutput(pre: seq<string>, line: string, post: seq<string>,
                           deltaContent: string -> Option<string>)
    requires Trim(line) == DoneLine
    ensures ScanLines(pre + [line] + post, deltaContent) == Scan(ScanLines(pre, deltaContent).deltas, true)
  {
    ScanAppend(pre + [line], post, deltaContent);
    assert (pre + [line])[..|pre|] == pre;
  }

  /** A line the parser ignores (blank, not a `data: ` line, malformed JSON, or no
      content) can be removed without changing the outcome. */
  lemma IgnoredLineIsInert(pre: seq<string>, line: string, post: seq<string>,
                           deltaContent: string -> Option<string>)
    requires Classify(line, deltaContent) == Ignore
    ensures ScanLines(pre + [line] + post, deltaContent) == ScanLines(pre + post, deltaContent)
  {
    ScanAppend(pre + [line], post, deltaContent);
    ScanAppend(pre, post, deltaContent);
    assert (pre + [line])[..|pre|] == pre;
  }

  /** A line that yields (by `Classify`, a `data: ` line other than the sentinel
      whose payload has non-empty content) appends exactly that content, unless the
      sentinel came first. */
  lemma DataLineYieldsContent(pre: seq<string>, line: string, deltaContent: string -> Option<string>)
    ensures Classify(line, deltaContent).Yield? ==>
      ScanLines(pre + [line], deltaContent) ==
        Then(ScanLines(pre, deltaContent), Scan([Classify(line, deltaContent).delta], false))
  {
    assert (pre + [line])[..|pre|] == pre;
  }

  /** Text after the last newline is never handled: at the end of the stream the
      pending line is discarded, even when it is a complete `data: ` line. */
  lemma {:induction false} PendingTailDiscarded(t: string, tail: string, deltaContent: string -> Option<string>)
    requires '\n' !in tail
    ensures Reference(t + tail, deltaContent) == Reference(t, deltaContent)
  {
    ReferenceExtend(t, tail, deltaContent);
    assert '\n' !in PendingLine(t) + tail;
    SplitNoNewline(PendingLine(t) + tail);
  }

}
