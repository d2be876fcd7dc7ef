/** The holographic card hook of client/hooks/use-holographic-card.tsx: the
    card tilts towards the pointer, a radial glare follows the pointer and
    a linear shine band lies across the card, both lit only while the
    pointer is over it. */
module Holographic {
  import opened Wrappers
  import opened Geometry

  datatype HoloOptions = HoloOptions(
    maxTilt: real, scale: real, speed: real, glareIntensity: real, shineIntensity: real)

  /** The defaults: 20 degrees, 1.08, 300 ms, glare 0.4, shine 0.6. */
  const DefaultOptions: HoloOptions := HoloOptions(20.0, 1.08, 300.0, 0.4, 0.6)

  /** The glare overlay's style: never set, hidden by a mouse leave, or a
      radial gradient centred on the pointer (in percent of the card) whose
      white fades from `centre` to `mid` alpha. */
  datatype Glare =
    | GlareUnset
    | GlareHidden
    | GlareAt(pointerX: real, pointerY: real, centre: real, mid: real, opacity: real)

  /** The shine overlay's style: a band whose white alpha rises from 0
      through `quarter` to `peak` at the middle and falls back symmetrically.
      Its angle follows the pointer and is not part of this model. */
  datatype Shine =
    | ShineUnset
    | ShineHidden
    | ShineBand(quarter: real, peak: real, opacity: real)

  /** The hook's state; the transform is absent until the first move or leave. */
  datatype HoloState = HoloState(hovered: bool, transform: Option<Transform>, glare: Glare, shine: Shine)

  const Initial: HoloState := HoloState(false, None, GlareUnset, ShineUnset)

  function OverlayOpacity(hovered: bool): real {
    if hovered then 1.0 else 0.0
  }

  /** `handleMouseMove` over the card `r`. */
  function Move(o: HoloOptions, r: Rect, s: HoloState, x: real, y: real): (s': HoloState)
    requires ValidRect(r)
    ensures s'.hovered == s.hovered
    ensures s'.transform.Some?
    ensures Rotation(s'.transform.value.rotateX, s'.transform.value.rotateY)
      == PointerRotation(r, x, y, o.maxTilt)
    ensures s'.transform.value.scale == o.scale
    ensures s'.glare.GlareAt? && s'.shine.ShineBand?
    ensures 0.0 <= s'.glare.pointerX <= 100.0 && 0.0 <= s'.glare.pointerY <= 100.0 <==> Inside(r, x, y)
    ensures s'.glare.pointerX == 50.0 + Offset(x, r.left, r.width) * 50.0
    ensures s'.glare.pointerY == 50.0 + Offset(y, r.top, r.height) * 50.0
    ensures s'.glare.centre == o.glareIntensity && s'.glare.mid == o.glareIntensity * 0.3
    ensures s'.shine.quarter == o.shineIntensity * 0.1 && s'.shine.peak == o.shineIntensity * 0.3
    ensures s'.glare.opacity == s'.shine.opacity == (if s.hovered then 1.0 else 0.0)
  {
    var rot := PointerRotation(r, x, y, o.maxTilt);
    PercentIsShiftedOffset(x, r.left, r.width);
    PercentIsShiftedOffset(y, r.top, r.height);
    HoloState(
      s.hovered,
      Some(Transform(rot.rotateX, rot.rotateY, o.scale)),
      GlareAt(Percent(x, r.left, r.width), Percent(y, r.top, r.height),
        o.glareIntensity, o.glareIntensity * 0.3, OverlayOpacity(s.hovered)),
      ShineBand(o.shineIntensity * 0.1, o.shineIntensity * 0.3, OverlayOpacity(s.hovered)))
  }

  /** `handleMouseEnter`. */
  function Enter(s: HoloState): (s': HoloState)
    ensures s'.hovered && s'.transform == s.transform && s'.glare == s.glare && s'.shine == s.shine
  {
    s.(hovered := true)
  }

  /** `handleMouseLeave`: unhovered, flat and unscaled, overlays hidden. */
  function Leave(s: HoloState): (s': HoloState)
    ensures !s'.hovered
    ensures s'.transform == Some(Flat)
    ensures s'.glare.GlareHidden? && s'.shine.ShineHidden?
  {
    HoloState(false, Some(Flat), GlareHidden, ShineHidden)
  }

  datatype Event = MouseEnter | MouseLeave | MouseMove(x: real, y: real)

  /** One event; a move with no mounted card does nothing. */
  function Handle(o: HoloOptions, element: Option<Rect>, s: HoloState, e: Event): (r: HoloState)
    requires element.Some? ==> ValidRect(element.value)
    ensures r.hovered == (match e case MouseEnter => true case MouseLeave => false case MouseMove(_, _) => s.hovered)
    ensures e.MouseLeave? ==> !Lit(r)
    ensures e.MouseMove? && element.None? ==> r == s
    ensures e.MouseMove? && element.Some? ==> r == Move(o, element.value, s, e.x, e.y)
    ensures e.MouseEnter? ==> r == Enter(s)
    ensures e.MouseLeave? ==> r == Leave(s)
    ensures (Lit(s) ==> s.hovered) ==> (Lit(r) ==> r.hovered)
  {
    match e
    case MouseEnter => Enter(s)
    case MouseLeave => Leave(s)
    case MouseMove(x, y) => if element.Some? then Move(o, element.value, s, x, y) else s
  }

  function Run(o: HoloOptions, element: Option<Rect>, s: HoloState, es: seq<Event>): HoloState
    requires element.Some? ==> ValidRect(element.value)
    decreases |es|
  {
    if |es| == 0 then s else Run(o, element, Handle(o, element, s, es[0]), es[1..])
  }

  /** An overlay is lit. */
  predicate Lit(s: HoloState) {
    (s.glare.GlareAt? && s.glare.opacity > 0.0) || (s.shine.ShineBand? && s.shine.opacity > 0.0)
  }

  /** Overlays are lit only while the pointer is over the card: a move
      made before the enter leaves them at opacity 0, and a leave hides them. */
  lemma {:induction false} LitOnlyWhileHovered(o: HoloOptions, element: Option<Rect>, s: HoloState, es: seq<Event>)
    requires element.Some? ==> ValidRect(element.value)
    requires Lit(s) ==> s.hovered
    ensures Lit(Run(o, element, s, es)) ==> Run(o, element, s, es).hovered
    decreases |es|
  {
    if |es| > 0 {
      LitOnlyWhileHovered(o, element, Handle(o, element, s, es[0]), es[1..]);
    }
  }

  /** Entering and then moving lights both overlays at full opacity. */
  lemma EnterThenMoveLights(o: HoloOptions, r: Rect, s: HoloState, x: real, y: real)
    requires ValidRect(r)
    ensures Move(o, r, Enter(s), x, y).glare.opacity == 1.0
    ensures Move(o, r, Enter(s), x, y).shine.opacity == 1.0
  {
  }

  /** At the card's centre the card is flat and the glare centred; at the
      middle of the right edge it is tilted by `maxTilt` about the vertical
      axis only, with the glare at the right edge. */
  lemma MoveLandmarks(o: HoloOptions, r: Rect, s: HoloState)
    requires ValidRect(r)
    ensures var c := Move(o, r, s, r.left + r.width / 2.0, r.top + r.height / 2.0);
      c.transform.value.rotateX == 0.0 && c.transform.value.rotateY == 0.0 &&
      c.glare.pointerX == 50.0 && c.glare.pointerY == 50.0
    ensures var e := Move(o, r, s, r.left + r.width, r.top + r.height / 2.0);
      e.transform.value.rotateX == 0.0 && e.transform.value.rotateY == o.maxTilt &&
      e.glare.pointerX == 100.0 && e.glare.pointerY == 50.0
  {
    CentreIsFlat(r, o.maxTilt);
    var edge := Offset(r.left + r.width, r.left, r.width);
    ScaleCompare(edge, r.width / 2.0, 1.0);
    assert edge == 1.0;
  }

  /** The glare follows the tilt: its horizontal position, measured from the
      middle, is proportional to the rotation about the vertical axis, and
      likewise vertically with the sign inverted. */
  lemma GlareTracksTilt(o: HoloOptions, r: Rect, s: HoloState, x: real, y: real)
    requires ValidRect(r)
    ensures var m := Move(o, r, s, x, y);
      (m.glare.pointerX - 50.0) * o.maxTilt == m.transform.value.rotateY * 50.0 &&
      (m.glare.pointerY - 50.0) * o.maxTilt == -m.transform.value.rotateX * 50.0
  {
    var ox := Offset(x, r.left, r.width);
    var oy := Offset(y, r.top, r.height);
    assert (ox * 50.0) * o.maxTilt == (ox * o.maxTilt) * 50.0;
    assert (oy * 50.0) * o.maxTilt == (oy * o.maxTilt) * 50.0;
  }

  /** The gradient stops keep their proportions, and for non-negative
      intensities none exceeds the configured intensity. */
  lemma StopProportions(o: HoloOptions, r: Rect, s: HoloState, x: real, y: real)
    requires ValidRect(r)
    requires o.glareIntensity >= 0.0 && o.shineIntensity >= 0.0
    ensures var m := Move(o, r, s, x, y);
      m.glare.mid * 10.0 == m.glare.centre * 3.0 && m.glare.mid <= m.glare.centre &&
      m.shine.peak == m.shine.quarter * 3.0 && m.shine.quarter <= m.shine.peak <= o.shineIntensity
  {
  }

  /** `opacity ${speed}ms ease-out`: the fade both overlays use whenever their
      opacity changes. */
  datatype OpacityFade = OpacityFade(ms: real)

  /** The card's style. */
  datatype CardStyle = CardStyle(transform: Option<Transform>, transition: Transition, brightened: bool, overlayFade: OpacityFade)

  /** `cardProps.style` plus the overlays' opacity transition. */
  function Style(o: HoloOptions, s: HoloState): (st: CardStyle)
    ensures st.transform == s.transform
    ensures st.transition == CardTransition(s.hovered, o.speed)
    ensures st.brightened <==> st.transition.NoTransition?
    ensures st.overlayFade == OpacityFade(o.speed)
  {
    CardStyle(s.transform, CardTransition(s.hovered, o.speed), s.hovered, OpacityFade(o.speed))
  }

  /** The card eases back over `speed` ms after a leave and follows the
      pointer without delay, brightened, after an enter. */
  lemma StyleAfterEnterLeave(o: HoloOptions, s: HoloState)
    ensures Style(o, Leave(s)).transition == EaseOut(o.speed) && !Style(o, Leave(s)).brightened
    ensures Style(o, Enter(s)).transition == NoTransition && Style(o, Enter(s)).brightened
  {
  }
}
