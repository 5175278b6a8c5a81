/**
 * The streaming hook (src/hooks/use-stream.ts): a state machine over what the
 * views show (idle, streaming, complete, error), driven by the user's generate,
 * stop and reset, and by the events of the one run in flight: a chunk, the end of
 * the stream, or a thrown error. A completed run with text is saved to history.
 *
 * React's `setState` is a step function from one session to the next; the abort
 * controller is the run's `aborted` flag.
 */
module StreamSession {
  import opened Wrappers
  import opened Strings
  import opened Streams
  import opened Storage
  import PromptUtils
  import History
  import Gateway

  /** `StreamState`. */
  datatype Status =
    | Idle
    | Streaming(data: string)
    | Complete(data: string)
    | Errored(error: string, data: string)

  /** The run in flight: its arguments, the text it has accumulated (`fullText`),
      and whether its controller was aborted. */
  datatype Run = Run(prompt: string, options: PromptUtils.PromptOptions, autoSave: bool, text: string, aborted: bool)

  datatype Session = Session(status: Status, run: Option<Run>)

  datatype Event =
    | Generate(prompt: string, options: PromptUtils.PromptOptions, autoSave: bool)
    | Deliver(chunk: string)   // the stream yields a chunk
    | Exhaust                  // the stream ends
    | Raise(failure: Failure)  // the stream throws
    | Stop
    | Reset

  /** A step's result: the next session, and the run whose history is saved, if any. */
  datatype Effect = Effect(session: Session, saved: Option<Run>)

  const Initial: Session := Session(Idle, None)
  /** What an error with an empty message reads as (`err.message || ...`). */
  const DefaultError: string := "An error occurred"

  // ---- What the views read (lines 164-168) ----

  predicate IsLoading(s: Status) { s.Streaming? }
  predicate IsComplete(s: Status) { s.Complete? }
  predicate IsError(s: Status) { s.Errored? }

  function Data(s: Status): (r: string)
    ensures s.Idle? ==> r == ""
    ensures !s.Idle? ==> r == s.data
  {
    if s.Idle? then "" else s.data
  }

  function Error(s: Status): (r: Option<string>)
    ensures r.Some? <==> IsError(s)
    ensures r.Some? ==> r.value == s.error
  {
    if s.Errored? then Some(s.error) else None
  }

  /** At most one of the flags holds, and none holds exactly when idle. */
  lemma FlagsExclusive(s: Status)
    ensures !(IsLoading(s) && IsComplete(s)) && !(IsLoading(s) && IsError(s)) && !(IsComplete(s) && IsError(s))
    ensures s.Idle? <==> !IsLoading(s) && !IsComplete(s) && !IsError(s)
  {
  }

  // ---- Steps ----

  /** `prev.status === 'streaming' ? prev.data : ''`. */
  function Shown(s: Status): string {
    if s.Streaming? then s.data else ""
  }

  /** The end of the loop: complete with the run's text, saved when asked for and
      non-empty. */
  function Finish(run: Run): (e: Effect)
    ensures e.session == Session(Complete(run.text), None)
    ensures e.saved.Some? <==> run.autoSave && run.text != ""
    ensures e.saved.Some? ==> e.saved.value == run
  {
    Effect(Session(Complete(run.text), None), if run.autoSave && run.text != "" then Some(run) else None)
  }

  /** The steps the user takes, the same in both versions below. */
  function UserStep(s: Session, e: Event): (r: Effect)
    requires e.Generate? || e.Stop? || e.Reset?
    ensures r.saved.None?
    ensures e.Generate? ==> r.session == Session(Streaming(""), Some(Run(e.prompt, e.options, e.autoSave, "", false)))
    ensures e.Stop? ==> r.session.run == (if s.run.Some? then Some(s.run.value.(aborted := true)) else None)
    ensures e.Stop? && s.status.Streaming? ==> r.session.status == Complete(s.status.data)
    ensures e.Stop? && !s.status.Streaming? ==> r.session.status == s.status
    ensures e.Reset? ==> r.session.status == Idle
    ensures e.Reset? ==> r.session.run == (if s.run.Some? then Some(s.run.value.(aborted := true)) else None)
  {
    var abort := if s.run.Some? then Some(s.run.value.(aborted := true)) else None;
    match e
    case Generate(prompt, options, autoSave) =>
      Effect(Session(Streaming(""), Some(Run(prompt, options, autoSave, "", false))), None)
    case Stop =>
      Effect(Session(if s.status.Streaming? then Complete(s.status.data) else s.status, abort), None)
    case Reset =>
      Effect(Session(Idle, abort), None)
  }

  /** The hook as written: an aborted run that reaches the end of its loop sets
      "complete" with its text, and one that throws an `AbortError` sets "complete"
      with the data of a streaming state and "" otherwise, whatever the user did in
      between. */
  function StepAsWritten(s: Session, e: Event): (r: Effect)
    ensures e.Generate? || e.Stop? || e.Reset? ==> r == UserStep(s, e)
    ensures s.run.None? && !(e.Generate? || e.Stop? || e.Reset?) ==> r == Effect(s, None)
  {
    if e.Generate? || e.Stop? || e.Reset? then UserStep(s, e)
    else if s.run.None? then Effect(s, None)
    else
      var run := s.run.value;
      match e
      case Deliver(chunk) =>
        if run.aborted then Finish(run)
        else
          var text := run.text + chunk;
          Effect(Session(Streaming(text), Some(run.(text := text))), None)
      case Exhaust => Finish(run)
      case Raise(Aborted) => Effect(Session(Complete(Shown(s.status)), None), None)
      case Raise(Fault(m)) => Effect(Session(Errored(MessageOr(m, DefaultError), Shown(s.status)), None), None)
  }

  /** The hook with its evident intent: once the user stops or resets, the run no
      longer changes what is shown; it still ends, and is saved as before. */
  function Step(s: Session, e: Event): (r: Effect)
    ensures s.run.Some? && s.run.value.aborted && !(e.Generate? || e.Stop? || e.Reset?) ==>
      r.session == Session(s.status, None)
    ensures !(s.run.Some? && s.run.value.aborted && !(e.Generate? || e.Stop? || e.Reset?)) ==>
      r == StepAsWritten(s, e)
    ensures r.saved == StepAsWritten(s, e).saved
  {
    var w := StepAsWritten(s, e);
    if s.run.Some? && s.run.value.aborted && !(e.Generate? || e.Stop? || e.Reset?) then
      Effect(Session(s.status, None), w.saved)
    else w
  }

  /** A streaming state always shows the text of a live run, and a live run is
      always being shown. */
  predicate Valid(s: Session) {
    && (s.status.Streaming? ==> s.run.Some? && !s.run.value.aborted)
    && (s.run.Some? && !s.run.value.aborted ==> s.status == Streaming(s.run.value.text))
  }

  lemma InitialValid()
    ensures Valid(Initial)
  {
  }

  /** Both versions keep the session valid. */
  lemma StepsPreserveValid(s: Session, e: Event)
    requires Valid(s)
    ensures Valid(Step(s, e).session)
    ensures Valid(StepAsWritten(s, e).session)
  {
  }

  /** Stopping twice is stopping once. */
  lemma StopIdempotent(s: Session)
    ensures Step(Step(s, Stop).session, Stop) == Step(s, Stop)
  {
  }

  /** Once stopped or reset, the run's remaining events leave the display alone. */
  lemma AbortedRunIsInert(s: Session, e: Event)
    requires Valid(s) && s.run.Some? && s.run.value.aborted
    requires e.Deliver? || e.Exhaust? || e.Raise?
    ensures Step(s, e).session.status == s.status
    ensures !IsLoading(Step(s, e).session.status)
  {
  }

  // ---- Runs of events ----

  datatype Trace = Trace(session: Session, saved: seq<Run>)

  function SavedList(o: Option<Run>): seq<Run> {
    if o.Some? then [o.value] else []
  }

  /** The session after a sequence of events, and the runs saved on the way. */
  function Play(s: Session, es: seq<Event>): (t: Trace)
    decreases |es|
  {
    if |es| == 0 then Trace(s, [])
    else
      var e := Step(s, es[0]);
      var t := Play(e.session, es[1..]);
      Trace(t.session, SavedList(e.saved) + t.saved)
  }

  /** The same for the hook as written. */
  function PlayAsWritten(s: Session, es: seq<Event>): (t: Trace)
    decreases |es|
  {
    if |es| == 0 then Trace(s, [])
    else
      var e := StepAsWritten(s, es[0]);
      var t := PlayAsWritten(e.session, es[1..]);
      Trace(t.session, SavedList(e.saved) + t.saved)
  }

  /** A run stays valid along any sequence of events. */
  lemma {:induction false} PlayPreservesValid(s: Session, es: seq<Event>)
    requires Valid(s)
    ensures Valid(Play(s, es).session)
    decreases |es|
  {
    if |es| > 0 {
      StepsPreserveValid(s, es[0]);
      PlayPreservesValid(Step(s, es[0]).session, es[1..]);
    }
  }

  function Delivers(chunks: seq<string>): (r: seq<Event>)
    ensures |r| == |chunks|
    ensures forall i :: 0 <= i < |chunks| ==> r[i] == Deliver(chunks[i])
  {
    seq(|chunks|, i requires 0 <= i < |chunks| => Deliver(chunks[i]))
  }

  /** The event that ends a stream with this outcome. */
  function Ending(failure: Option<Failure>): Event {
    if failure.None? then Exhaust else Raise(failure.value)
  }

  /** The events a stream's emission produces, in order. */
  function EventsOf(out: Emission): seq<Event> {
    Delivers(out.deltas) + [Ending(out.failure)]
  }

  /** Chunks of a live run accumulate: the display shows their concatenation. */
  lemma {:induction false} DeliverAll(run: Run, chunks: seq<string>, rest: seq<Event>)
    requires !run.aborted
    ensures var text := run.text + Concat(chunks);
      Play(Session(Streaming(run.text), Some(run)), Delivers(chunks) + rest)
        == Play(Session(Streaming(text), Some(run.(text := text))), rest)
    decreases |chunks|
  {
    var s := Session(Streaming(run.text), Some(run));
    if |chunks| == 0 {
      assert Delivers(chunks) + rest == rest;
      assert run.text + Concat(chunks) == run.text;
      assert run.(text := run.text) == run;
    } else {
      var run' := run.(text := run.text + chunks[0]);
      assert (Delivers(chunks) + rest)[0] == Deliver(chunks[0]);
      assert (Delivers(chunks) + rest)[1..] == Delivers(chunks[1..]) + rest;
      assert Step(s, Deliver(chunks[0])) == Effect(Session(Streaming(run'.text), Some(run')), None);
      DeliverAll(run', chunks[1..], rest);
      ConcatCons(chunks);
      assert run'.text + Concat(chunks[1..]) == run.text + Concat(chunks);
    }
  }

  /** What a run that is not interrupted shows when its stream is done. */
  function Outcome(out: Emission): Status {
    match out.failure
    case None => Complete(Concat(out.deltas))
    case Some(Aborted) => Complete(Concat(out.deltas))
    case Some(Fault(m)) => Errored(MessageOr(m, DefaultError), Concat(out.deltas))
  }

  /** A generate followed by a stream's events shows the stream's text, or its error
      with the text so far; it is saved exactly when it ends cleanly with text and
      the caller asked for it. */
  lemma Consume(s: Session, prompt: string, options: PromptUtils.PromptOptions, autoSave: bool, out: Emission)
    ensures var t := Play(s, [Generate(prompt, options, autoSave)] + EventsOf(out));
      && t.session == Session(Outcome(out), None)
      && t.saved == (if out.failure.None? && autoSave && Concat(out.deltas) != ""
                     then [Run(prompt, options, autoSave, Concat(out.deltas), false)] else [])
  {
    var run := Run(prompt, options, autoSave, "", false);
    var es := [Generate(prompt, options, autoSave)] + EventsOf(out);
    assert es[0] == Generate(prompt, options, autoSave);
    assert es[1..] == Delivers(out.deltas) + [Ending(out.failure)];
    assert Step(s, es[0]) == Effect(Session(Streaming(""), Some(run)), None);
    DeliverAll(run, out.deltas, [Ending(out.failure)]);
    var text := "" + Concat(out.deltas);
    assert text == Concat(out.deltas);
  }

  // ---- Saving history (lines 41-85) ----

  const FreeProvider: string := "Google Translate"
  const FreeModel: string := "free"
  const DefaultModel: string := "default"
  const AiPreference: string := "ai"

  /** The provider and model `saveHistory` records. */
  function Attribution(mode: PromptUtils.Mode, store: Store): (r: (string, string))
    ensures mode.Rewrite? ==> r.0 == ActiveProvider(store)
    ensures r.0 != FreeProvider ==> r.0 == ActiveProvider(store)
    ensures var p := OrElse(Get(store, PreferenceKey), Gateway.FreePreference);
      mode.Translate? && (p == Gateway.FreePreference || (p == AiPreference && !HasKey(store, ActiveProvider(store)))) ==>
        r == (FreeProvider, FreeModel)
    ensures var p := OrElse(Get(store, PreferenceKey), Gateway.FreePreference);
      !(mode.Translate? && (p == Gateway.FreePreference || (p == AiPreference && !HasKey(store, ActiveProvider(store))))) ==>
        r == (ActiveProvider(store), OrElse(Get(store, ModelName(ActiveProvider(store))), DefaultModel))
  {
    var active := ActiveProvider(store);
    var model := OrElse(Get(store, ModelName(active)), DefaultModel);
    if mode.Translate? then
      var preferred := OrElse(Get(store, PreferenceKey), Gateway.FreePreference);
      if preferred == Gateway.FreePreference || (preferred == AiPreference && !HasKey(store, active)) then
        (FreeProvider, FreeModel)
      else (active, model)
    else (active, model)
  }

  /** `saveHistory(prompt, fullText, options)`: the record it asks the background to
      store. */
  function Record(run: Run, store: Store): (d: History.Draft)
    ensures d.kind == run.options.mode && d.original == run.prompt && d.result == run.text
    ensures d.rewriteOptions.Some? <==> run.options.mode.Rewrite?
    ensures d.translateOptions.Some? <==> run.options.mode.Translate?
    ensures d.rewriteOptions.Some? ==> d.rewriteOptions.value == run.options.tone
    ensures d.translateOptions.Some? ==> d.translateOptions.value == run.options.targetLang
    ensures (d.provider, d.model) == Attribution(run.options.mode, store)
  {
    var (provider, model) := Attribution(run.options.mode, store);
    History.Draft(run.options.mode, run.prompt, run.text, provider, model,
      if run.options.mode.Rewrite? then Some(run.options.tone) else None,
      if run.options.mode.Translate? then Some(run.options.targetLang) else None)
  }

  /** For every preference the settings page writes, the record names the free
      endpoint exactly when the gateway took the free route. */
  lemma AttributionMatchesRoute(mode: PromptUtils.Mode, store: Store)
    requires var p := Gateway.Preference(store); p == Gateway.FreePreference || p == AiPreference
    ensures Gateway.RouteFor(mode, store) != Gateway.Ai ==> Attribution(mode, store) == (FreeProvider, FreeModel)
    ensures Gateway.RouteFor(mode, store) == Gateway.Ai ==> Attribution(mode, store).0 == ActiveProvider(store)
  {
  }

  // ---- The hook as written, against its evident intent ----

  /** Stopping, then the `AbortError` the aborted read throws, empties the output
      the stop had kept. */
  lemma StopThenAbortAsWritten(options: PromptUtils.PromptOptions)
    ensures var es := [Generate("p", options, true), Deliver("Hi"), Stop, Raise(Aborted)];
      && PlayAsWritten(Initial, es).session.status == Complete("")
      && Play(Initial, es).session.status == Complete("Hi")
  {
    var es := [Generate("p", options, true), Deliver("Hi"), Stop, Raise(Aborted)];
    var run := Run("p", options, true, "", false);
    var started := Session(Streaming(""), Some(run));
    var shown := Session(Streaming("Hi"), Some(run.(text := "Hi")));
    var stopped := Session(Complete("Hi"), Some(run.(text := "Hi", aborted := true)));
    assert "" + "Hi" == "Hi";
    assert es[1..][1..][1..] == [Raise(Aborted)];
    assert Step(shown, Stop).session == stopped == StepAsWritten(shown, Stop).session;
    assert PlayAsWritten(stopped, [Raise(Aborted)]).session.status == Complete("");
    assert Play(stopped, [Raise(Aborted)]).session.status == Complete("Hi");
    assert es[1..][1..] == [Stop, Raise(Aborted)];
    assert es[1..] == [Deliver("Hi"), Stop, Raise(Aborted)];
    assert Step(started, Deliver("Hi")).session == shown == StepAsWritten(started, Deliver("Hi")).session;
    assert Play(shown, [Stop, Raise(Aborted)]).session == Play(stopped, [Raise(Aborted)]).session;
    assert PlayAsWritten(shown, [Stop, Raise(Aborted)]).session == PlayAsWritten(stopped, [Raise(Aborted)]).session;
    assert Play(started, es[1..]).session == Play(shown, es[1..][1..]).session;
    assert PlayAsWritten(started, es[1..]).session == PlayAsWritten(shown, es[1..][1..]).session;
    assert Play(Initial, es).session == Play(started, es[1..]).session;
    assert PlayAsWritten(Initial, es).session == PlayAsWritten(started, es[1..]).session;
  }

  /** Resetting, then the `AbortError` the aborted read throws, takes the reset
      session out of idle: it ends "complete" with nothing. */
  lemma ResetThenAbortAsWritten(options: PromptUtils.PromptOptions)
    ensures var es := [Generate("p", options, true), Deliver("Hi"), Reset, Raise(Aborted)];
      && PlayAsWritten(Initial, es).session.status == Complete("")
      && Play(Initial, es).session.status == Idle
  {
    var es := [Generate("p", options, true), Deliver("Hi"), Reset, Raise(Aborted)];
    var run := Run("p", options, true, "", false);
    var started := Session(Streaming(""), Some(run));
    var shown := Session(Streaming("Hi"), Some(run.(text := "Hi")));
    var reset := Session(Idle, Some(run.(text := "Hi", aborted := true)));
    assert "" + "Hi" == "Hi";
    assert es[1..][1..][1..] == [Raise(Aborted)];
    assert Step(shown, Reset).session == reset == StepAsWritten(shown, Reset).session;
    assert PlayAsWritten(reset, [Raise(Aborted)]).session.status == Complete("");
    assert Play(reset, [Raise(Aborted)]).session.status == Idle;
    assert es[1..][1..] == [Reset, Raise(Aborted)];
    assert es[1..] == [Deliver("Hi"), Reset, Raise(Aborted)];
    assert Step(started, Deliver("Hi")).session == shown == StepAsWritten(started, Deliver("Hi")).session;
    assert Play(shown, [Reset, Raise(Aborted)]).session == Play(reset, [Raise(Aborted)]).session;
    assert PlayAsWritten(shown, [Reset, Raise(Aborted)]).session == PlayAsWritten(reset, [Raise(Aborted)]).session;
    assert Play(started, es[1..]).session == Play(shown, es[1..][1..]).session;
    assert PlayAsWritten(started, es[1..]).session == PlayAsWritten(shown, es[1..][1..]).session;
    assert Play(Initial, es).session == Play(started, es[1..]).session;
    assert PlayAsWritten(Initial, es).session == PlayAsWritten(started, es[1..]).session;
  }

  /** With the intended behaviour, stopping keeps what was shown, whatever the run
      does afterwards. */
  lemma {:induction false} StopKeepsOutput(s: Session, rest: seq<Event>)
    requires Valid(s) && s.status.Streaming?
    requires forall i :: 0 <= i < |rest| ==> rest[i].Deliver? || rest[i].Exhaust? || rest[i].Raise?
    ensures Play(s, [Stop] + rest).session.status == Complete(s.status.data)
  {
    var stopped := Step(s, Stop).session;
    assert ([Stop] + rest)[1..] == rest;
    InertRun(stopped, rest);
  }

  /** A reset run stays reset, whatever the run does afterwards. */
  lemma {:induction false} ResetStaysIdle(s: Session, rest: seq<Event>)
    requires Valid(s)
    requires forall i :: 0 <= i < |rest| ==> rest[i].Deliver? || rest[i].Exhaust? || rest[i].Raise?
    ensures Play(s, [Reset] + rest).session.status == Idle
  {
    assert ([Reset] + rest)[1..] == rest;
    InertRun(Step(s, Reset).session, rest);
  }

  /** Run events on a session whose run was aborted, or that has none, change
      nothing shown. */
  lemma {:induction false} InertRun(s: Session, rest: seq<Event>)
    requires s.run.Some? ==> s.run.value.aborted
    requires forall i :: 0 <= i < |rest| ==> rest[i].Deliver? || rest[i].Exhaust? || rest[i].Raise?
    ensures Play(s, rest).session.status == s.status
    decreases |rest|
  {
    if |rest| > 0 {
      var n := Step(s, rest[0]).session;
      assert n.status == s.status && n.run.None?;
      InertRun(n, rest[1..]);
    }
  }
}
