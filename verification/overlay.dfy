/**
 * The content script's overlay (src/content.tsx): it follows the page's selection,
 * shows a rewrite button over editable text and a translate button elsewhere,
 * starts one translation in the background when the mouse rests on the translate
 * button, and splices a result back into the text field it came from.
 *
 * The DOM is read through a `Snapshot` taken when the selection timer fires;
 * ranges, `execCommand` and events are not modelled.
 */
module Overlay {
  import opened Wrappers
  import opened Strings
  import opened Storage
  import PromptUtils
  import Layout
  import StreamSession

  const DefaultLanguageKey: string := "default_lang_translate"
  const DefaultLanguage: string := "English"

  /** The component's state. `target` is the element a result goes back into;
      `hasRange` whether a content-editable range was captured. */
  datatype State = State(
    visible: bool,
    showModal: bool,
    mode: PromptUtils.Mode,
    position: Layout.Point,
    selectedText: string,
    placement: Layout.Placement,
    target: Option<Layout.Element>,
    hasRange: bool,
    hasPrefetched: bool)

  const Initial: State := State(false, false, PromptUtils.Translate, Layout.Point(0.0, 0.0), "", Layout.Bottom, None, false, false)

  // ---- Substrings and the splice ----

  function ClampIndex(i: int, len: nat): (r: nat)
    ensures r <= len
    ensures 0 <= i <= len ==> r == i
  {
    if i < 0 then 0 else if i > len then len else i
  }

  /** `s.substring(a, b)`: both ends clamped into the string, then swapped if
      reversed. */
  function Substring(s: string, a: int, b: int): (r: string)
    ensures 0 <= a <= b <= |s| ==> r == s[a..b]
  {
    var i := ClampIndex(a, |s|);
    var j := ClampIndex(b, |s|);
    if i <= j then s[i..j] else s[j..i]
  }

  /** `handleReplace` on a text field: the selection `start..end` of `value` gives
      way to `text`. */
  function Splice(value: string, start: int, end: int, text: string): (r: string)
    ensures 0 <= start <= end <= |value| ==>
      && |r| == |value| - (end - start) + |text|
      && r[..start] == value[..start]
      && r[start..start + |text|] == text
      && r[start + |text|..] == value[end..]
  {
    Substring(value, 0, start) + text + Substring(value, end, |value|)
  }

  /** Putting back the selected text restores the field. */
  lemma SpliceSelectionBack(value: string, start: nat, end: nat)
    requires start <= end <= |value|
    ensures Splice(value, start, end, Substring(value, start, end)) == value
  {
    assert value[..start] + value[start..end] + value[end..] == value;
  }

  /** Two splices at the same place: the second replaces the first's text. */
  lemma SpliceTwice(value: string, start: nat, end: nat, a: string, b: string)
    requires start <= end <= |value|
    ensures Splice(Splice(value, start, end, a), start, start + |a|, b) == Splice(value, start, end, b)
  {
    var once := Splice(value, start, end, a);
    assert once[..start] == value[..start];
    assert once[start + |a|..] == value[end..];
  }

  // ---- handleSelection (lines 161-239) ----

  /** What the selection timer reads from the page: the focused element and its
      value and selection bounds, the page selection's text (empty when there is
      none), whether it has a range, and the two rectangles the code may measure. */
  datatype Snapshot = Snapshot(
    active: Option<Layout.Element>,
    value: string,
    selectionStart: int,
    selectionEnd: int,
    selection: string,
    hasRange: bool,
    elementRect: Layout.Rect,
    rangeRect: Layout.Rect,
    screenHeight: real)

  /** The handler compares the tag name as the DOM reports it for HTML documents. */
  predicate IsFieldTag(e: Option<Layout.Element>) {
    e.Some? && (e.value.tagName == "INPUT" || e.value.tagName == "TEXTAREA")
  }

  predicate HasSelection(snap: Snapshot) {
    Trim(snap.selection) != ""
  }

  predicate IsInputSelection(snap: Snapshot) {
    IsFieldTag(snap.active) && snap.selectionStart != snap.selectionEnd
  }

  /** The text the handler takes as selected. */
  function SelectedText(snap: Snapshot): string {
    if IsFieldTag(snap.active) then
      (if IsInputSelection(snap) then Substring(snap.value, snap.selectionStart, snap.selectionEnd) else "")
    else if HasSelection(snap) then snap.selection
    else ""
  }

  /** The handler's timer callback. */
  function Select(s: State, snap: Snapshot): (r: State)
    ensures s.showModal ==> r == s
    ensures !s.showModal && !HasSelection(snap) && !IsInputSelection(snap) ==>
      !r.visible && !r.hasPrefetched && r.selectedText == s.selectedText
    ensures !s.showModal && (HasSelection(snap) || IsInputSelection(snap)) ==>
      && r.selectedText == SelectedText(snap)
      && (r.mode == PromptUtils.Rewrite <==> Layout.IsEditable(snap.active))
    ensures !s.showModal && IsInputSelection(snap) ==> r.target == snap.active
    ensures !s.showModal && IsInputSelection(snap) && Layout.IsEditable(snap.active) ==>
      r.visible && r.position == Layout.Anchor(snap.elementRect)
    ensures !s.showModal && HasSelection(snap) && !IsInputSelection(snap) && snap.hasRange ==>
      r.visible && r.position == Layout.Anchor(snap.rangeRect)
    ensures r.visible && !s.visible ==> r.placement == Layout.PlacementFor(r.position.y, snap.screenHeight)
  {
    if s.showModal then s
    else
      var inputSelection := IsInputSelection(snap);
      var target :=
        if IsFieldTag(snap.active) then (if inputSelection then snap.active else s.target)
        else if HasSelection(snap) then None
        else s.target;
      if !HasSelection(snap) && !inputSelection then
        s.(visible := false, hasPrefetched := false, target := target)
      else
        var text := SelectedText(snap);
        var changed := text != s.selectedText;
        var editable := Layout.IsEditable(snap.active);
        var captures := editable && !inputSelection && snap.hasRange;
        var rect :=
          if editable && inputSelection then Some(snap.elementRect)
          else if snap.hasRange then Some(snap.rangeRect)
          else None;
        var s1 := s.(
          selectedText := text,
          hasPrefetched := if changed then false else s.hasPrefetched,
          mode := if editable then PromptUtils.Rewrite else PromptUtils.Translate,
          hasRange := captures,
          target := if captures then snap.active else target);
        if rect.Some? then
          var p := Layout.Anchor(rect.value);
          s1.(position := p, placement := Layout.PlacementFor(p.y, snap.screenHeight), visible := true)
        else s1
  }

  /** While the modal is open the selection is ignored. */
  lemma OpenModalIgnoresSelection(s: State, snap: Snapshot)
    requires s.showModal
    ensures Select(s, snap) == s
  {
  }

  /** With nothing selected the button hides and the next hover may prefetch again. */
  lemma NoSelectionHides(s: State, snap: Snapshot)
    requires !s.showModal && !HasSelection(snap) && !IsInputSelection(snap)
    ensures !Select(s, snap).visible && !Select(s, snap).hasPrefetched
    ensures Select(s, snap).selectedText == s.selectedText
  {
  }

  /** With a selection, the button offers a rewrite exactly over editable elements;
      a new text clears the prefetch mark and the same text keeps it. */
  lemma SelectionSetsMode(s: State, snap: Snapshot)
    requires !s.showModal && (HasSelection(snap) || IsInputSelection(snap))
    ensures var r := Select(s, snap);
      && (r.mode == PromptUtils.Rewrite <==> Layout.IsEditable(snap.active))
      && r.selectedText == SelectedText(snap)
      && (SelectedText(snap) != s.selectedText ==> !r.hasPrefetched)
      && (SelectedText(snap) == s.selectedText ==> r.hasPrefetched == s.hasPrefetched)
  {
  }

  /** A text selected inside a field is the field's value between the selection
      bounds, and the result goes back into that field. */
  lemma FieldSelectionTargetsField(s: State, snap: Snapshot)
    requires !s.showModal && IsInputSelection(snap)
    requires 0 <= snap.selectionStart <= snap.selectionEnd <= |snap.value|
    ensures Select(s, snap).selectedText == snap.value[snap.selectionStart..snap.selectionEnd]
    ensures Select(s, snap).target == snap.active
  {
  }

  // ---- Prefetch (lines 148-159) ----

  /** `handleMouseEnterTranslate`: the new state, and the generate it starts. */
  function Prefetch(s: State, store: Store): (r: (State, Option<StreamSession.Event>))
    ensures r.1.Some? <==> s.mode.Translate? && s.selectedText != "" && !s.hasPrefetched && !s.showModal
    ensures r.1.Some? ==> r.0 == s.(hasPrefetched := true)
    ensures r.1.None? ==> r.0 == s
    ensures r.1.Some? ==> r.1.value.Generate? && r.1.value.prompt == s.selectedText && r.1.value.autoSave
    ensures r.1.Some? ==> r.1.value.options.mode.Translate? && Truthy(r.1.value.options.targetLang)
  {
    if s.mode.Translate? && s.selectedText != "" && !s.hasPrefetched && !s.showModal then
      var lang := OrElse(Get(store, DefaultLanguageKey), DefaultLanguage);
      (s.(hasPrefetched := true),
       Some(StreamSession.Generate(s.selectedText, PromptUtils.PromptOptions(PromptUtils.Translate, None, Some(lang)), true)))
    else (s, None)
  }

  /** Hovering again starts nothing new. */
  lemma PrefetchOnce(s: State, store: Store, store': Store)
    ensures Prefetch(Prefetch(s, store).0, store').1.None?
  {
  }

  /** The prefetch asks for the stored default language, or English. */
  lemma PrefetchLanguage(s: State, store: Store)
    requires Prefetch(s, store).1.Some?
    ensures Prefetch(s, store).1.value.options.targetLang == Some(OrElse(Get(store, DefaultLanguageKey), DefaultLanguage))
  {
  }

  // ---- The modal (lines 279-327) ----

  /** What the modal receives of the prefetch: only a translation's. */
  function ModalPrefetch(mode: PromptUtils.Mode, data: string, loading: bool): (r: Option<(string, bool)>)
    ensures r.Some? <==> mode.Translate?
    ensures r.Some? ==> r.value == (data, loading)
  {
    if mode.Translate? then Some((data, loading)) else None
  }

  function OpenModal(s: State): State {
    s.(showModal := true)
  }

  /** `handleCloseModal`. */
  function CloseModal(s: State): (r: State)
    ensures !r.showModal && !r.visible && !r.hasPrefetched
    ensures r.selectedText == s.selectedText && r.mode == s.mode && r.target == s.target
  {
    s.(showModal := false, visible := false, hasPrefetched := false)
  }

  /** `handleReplace(newText)` on a text field: the field's new value, and the
      overlay closes. Without a target nothing happens. */
  function Replace(s: State, value: string, start: int, end: int, text: string): (r: (State, Option<string>))
    ensures s.target.None? ==> r == (s, None)
    ensures s.target.Some? ==> r.0 == CloseModal(s)
    ensures s.target.Some? && IsFieldTag(s.target) ==> r.1 == Some(Splice(value, start, end, text))
    ensures !IsFieldTag(s.target) ==> r.1.None?
  {
    if s.target.None? then (s, None)
    else if IsFieldTag(s.target) then (CloseModal(s), Some(Splice(value, start, end, text)))
    else (CloseModal(s), None)
  }

  /** A field's selection rewritten and replaced: the text outside the selection is
      kept and the selection becomes the result. */
  lemma ReplaceKeepsSurroundings(s: State, snap: Snapshot, result: string)
    requires !s.showModal && IsInputSelection(snap)
    requires 0 <= snap.selectionStart <= snap.selectionEnd <= |snap.value|
    ensures var r := Replace(OpenModal(Select(s, snap)), snap.value, snap.selectionStart, snap.selectionEnd, result).1;
      && r.Some?
      && r.value == snap.value[..snap.selectionStart] + result + snap.value[snap.selectionEnd..]
  {
    var v := snap.value;
    var r := Splice(v, snap.selectionStart, snap.selectionEnd, result);
    assert r == v[..snap.selectionStart] + result + v[snap.selectionEnd..];
  }
}
