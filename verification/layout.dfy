/**
 * Where the floating button and the modal go, and which elements take a
 * rewrite (src/features/content/constants.ts and use-floating-position.ts; the
 * content script src/content.tsx keeps its own copies of the same definitions).
 * Coordinates are reals; JavaScript's NaN and infinities are not modelled.
 */
module Layout {
  import opened Wrappers
  import opened Strings

  const ModalWidth: real := 380.0
  const Padding: real := 12.0
  const OffsetY: real := 12.0

  /** The nearest the modal's centre may come to either edge of the window: 202 pixels. */
  const Margin: real := ModalWidth / 2.0 + Padding

  /** The parts of a DOM element the rules read. */
  datatype Element = Element(tagName: string, readOnly: bool, disabled: bool, contentEditable: bool)

  predicate IsTextField(e: Element) {
    Lower(e.tagName) == "input" || Lower(e.tagName) == "textarea"
  }

  /** `isEditableElement(element)`: a text field that is neither read-only nor
      disabled, or any other element that is content-editable. */
  function IsEditable(e: Option<Element>): (r: bool)
    ensures r ==> e.Some?
    ensures e.Some? && IsTextField(e.value) ==> (r <==> !e.value.readOnly && !e.value.disabled)
    ensures e.Some? && !IsTextField(e.value) ==> (r <==> e.value.contentEditable)
  {
    e.Some? && (if IsTextField(e.value) then !e.value.readOnly && !e.value.disabled else e.value.contentEditable)
  }

  /** The tag name is compared ignoring case. */
  lemma EditableIgnoresTagCase(e: Element)
    ensures IsEditable(Some(e.(tagName := Upper(e.tagName)))) == IsEditable(Some(e))
    ensures IsEditable(Some(e.(tagName := Lower(e.tagName)))) == IsEditable(Some(e))
  {
    var t := e.tagName;
    forall i | 0 <= i < |t| ensures Lower(Upper(t))[i] == Lower(t)[i] && Lower(Lower(t))[i] == Lower(t)[i] {
      assert 'A' <= UpperChar(t[i]) <= 'Z' ==> LowerChar(UpperChar(t[i])) == LowerChar(t[i]);
    }
    assert Lower(Upper(t)) == Lower(t);
    assert Lower(Lower(t)) == Lower(t);
  }

  /** A text field's editability does not depend on `contentEditable`; any other
      element's depends on nothing else. */
  lemma EditableFields(e: Element, ce: bool, ro: bool, dis: bool)
    ensures IsTextField(e) ==> IsEditable(Some(e.(contentEditable := ce))) == IsEditable(Some(e))
    ensures !IsTextField(e) ==> IsEditable(Some(e.(readOnly := ro, disabled := dis))) == e.contentEditable
    ensures !IsEditable(None)
  {
  }

  // ---- Clamping (getClampedPosition) ----

  function Max(a: real, b: real): real { if a >= b then a else b }
  function Min(a: real, b: real): real { if a <= b then a else b }

  datatype Point = Point(x: real, y: real)

  /** `getClampedPosition(x, y, screenWidth)`. */
  function Clamp(p: Point, screenWidth: real): (r: Point)
    ensures r.y == p.y
    ensures r.x >= Margin
    ensures screenWidth >= 2.0 * Margin ==> r.x <= screenWidth - Margin
    ensures Margin <= p.x <= screenWidth - Margin ==> r.x == p.x
    ensures screenWidth < 2.0 * Margin ==> r.x == Margin
  {
    Point(Max(Margin, Min(p.x, screenWidth - Margin)), p.y)
  }

  /** Clamping twice is clamping once. */
  lemma ClampIdempotent(p: Point, screenWidth: real)
    ensures Clamp(Clamp(p, screenWidth), screenWidth) == Clamp(p, screenWidth)
  {
  }

  /** The clamped point is the nearest allowed point when the window is wide enough:
      moving the centre any less would leave it out of bounds. */
  lemma ClampIsNearest(p: Point, screenWidth: real, x: real)
    requires screenWidth >= 2.0 * Margin
    requires Margin <= x <= screenWidth - Margin
    ensures Abs(Clamp(p, screenWidth).x - p.x) <= Abs(x - p.x)
  {
  }

  function Abs(a: real): real { if a < 0.0 then -a else a }

  // ---- Anchor and placement (updatePosition) ----

  datatype Rect = Rect(left: real, top: real, width: real, height: real)
  datatype Placement = Top | Bottom

  /** The button's anchor: the middle of the selection's top edge, raised by the
      offset. */
  function Anchor(r: Rect): (p: Point)
    ensures p.y + OffsetY == r.top
    ensures p.x - r.left == r.left + r.width - p.x
  {
    Point(r.left + r.width / 2.0, r.top - OffsetY)
  }

  /** `y > screenHeight / 2 ? "top" : "bottom"`: the modal opens towards the larger
      part of the window, above when there is more room above the anchor than below. */
  function PlacementFor(y: real, screenHeight: real): (r: Placement)
    ensures r == Top <==> y > screenHeight - y
  {
    if y > screenHeight / 2.0 then Top else Bottom
  }
}
