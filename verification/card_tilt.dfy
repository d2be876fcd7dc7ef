/** The tilt hook of client/hooks/use-card-tilt.tsx: a card that follows
    the mouse while hovered and, on phones, the device's orientation, with
    a sheen overlay that moves with the tilt. The element's rectangle, the
    pointer and the orientation angles arrive as parameters. */
module CardTilt {
  import opened Wrappers
  import opened Geometry

  /** The hook's options. */
  datatype TiltOptions = TiltOptions(maxTilt: real, scale: real, speed: real, glare: bool, maxGlare: real)

  /** The defaults: 25 degrees, 1.05, 1000 ms, glare on at 0.3. */
  const DefaultOptions: TiltOptions := TiltOptions(25.0, 1.05, 1000.0, true, 0.3)

  /** `TiltState`: rotation in degrees, scale, sheen position in percent
      and the sheen's peak opacity. */
  datatype TiltState = TiltState(
    rotateX: real, rotateY: real, scale: real,
    sheenX: real, sheenY: real, sheenOpacity: real)

  /** The initial state and what `resetTilt` restores. */
  const Neutral: TiltState := TiltState(0.0, 0.0, 1.0, 50.0, 50.0, 0.0)

  /** The sheen sits inside the card. */
  predicate SheenInside(t: TiltState) {
    0.0 <= t.sheenX <= 100.0 && 0.0 <= t.sheenY <= 100.0
  }

  /** `updateTiltFromMouse` with the element's rectangle `r`: rotation from
      the pointer's offset, unclamped; the sheen follows the offset but is
      clamped to the card; the sheen shows at `maxGlare` when glare is on. */
  function FromMouse(o: TiltOptions, r: Rect, x: real, y: real): (t: TiltState)
    requires ValidRect(r)
    ensures Rotation(t.rotateX, t.rotateY) == PointerRotation(r, x, y, o.maxTilt)
    ensures t.scale == o.scale
    ensures SheenInside(t)
    ensures r.left <= x <= r.left + r.width ==> t.sheenX == Percent(x, r.left, r.width)
    ensures r.top <= y <= r.top + r.height ==> t.sheenY == Percent(y, r.top, r.height)
    ensures x < r.left ==> t.sheenX == 0.0
    ensures x > r.left + r.width ==> t.sheenX == 100.0
    ensures y < r.top ==> t.sheenY == 0.0
    ensures y > r.top + r.height ==> t.sheenY == 100.0
    ensures t.sheenOpacity == if o.glare then o.maxGlare else 0.0
  {
    var dx := Offset(x, r.left, r.width);
    var dy := Offset(y, r.top, r.height);
    PercentIsShiftedOffset(x, r.left, r.width);
    PercentIsShiftedOffset(y, r.top, r.height);
    TiltState(
      -dy * o.maxTilt, dx * o.maxTilt, o.scale,
      Clamp(0.0, 100.0, 50.0 + dx * 50.0), Clamp(0.0, 100.0, 50.0 + dy * 50.0),
      if o.glare then o.maxGlare else 0.0)
  }

  /** `Math.max(-45, Math.min(45, angle)) / 45`. */
  function Normalize(angle: real): (n: real)
    ensures -1.0 <= n <= 1.0
    ensures angle >= 45.0 ==> n == 1.0
    ensures angle <= -45.0 ==> n == -1.0
    ensures -45.0 <= angle <= 45.0 ==> n * 45.0 == angle
  {
    Clamp(-45.0, 45.0, angle) / 45.0
  }

  /** `updateTiltFromOrientation(beta, gamma)`: front-to-back tilt `beta`
      drives `rotateX` and the vertical sheen, side-to-side tilt `gamma`
      drives `rotateY` and the horizontal sheen; the sheen is dimmer than
      for the mouse. */
  function FromOrientation(o: TiltOptions, beta: real, gamma: real): (t: TiltState)
    ensures t.rotateX == Normalize(beta) * o.maxTilt
    ensures t.rotateY == Normalize(gamma) * o.maxTilt
    ensures t.scale == o.scale
    ensures SheenInside(t)
    ensures t.sheenX == 50.0 + Normalize(gamma) * 50.0
    ensures t.sheenY == 50.0 + Normalize(beta) * 50.0
    ensures t.sheenOpacity == if o.glare then o.maxGlare * 0.7 else 0.0
  {
    var nb := Normalize(beta);
    var ng := Normalize(gamma);
    TiltState(
      nb * o.maxTilt, ng * o.maxTilt, o.scale,
      Clamp(0.0, 100.0, 50.0 + ng * 50.0), Clamp(0.0, 100.0, 50.0 + nb * 50.0),
      if o.glare then o.maxGlare * 0.7 else 0.0)
  }

  /** The mouse at the centre of the card: flat, sheen in the middle. */
  lemma MouseAtCentre(o: TiltOptions, r: Rect)
    requires ValidRect(r)
    ensures var t := FromMouse(o, r, r.left + r.width / 2.0, r.top + r.height / 2.0);
      t.rotateX == 0.0 && t.rotateY == 0.0 && t.sheenX == 50.0 && t.sheenY == 50.0
  {
    CentreIsFlat(r, o.maxTilt);
  }

  /** Past the left or right edge the sheen is pinned to that edge while
      the rotation keeps growing beyond `maxTilt`; past the top or bottom
      edge the sheen is pinned to that edge too, while its horizontal
      position still follows a pointer within the card's width. */
  lemma MouseBeyondEdge(o: TiltOptions, r: Rect, x: real, y: real)
    requires ValidRect(r) && o.maxTilt > 0.0
    ensures x < r.left || x > r.left + r.width ==>
      Abs(FromMouse(o, r, x, y).rotateY) > o.maxTilt && FromMouse(o, r, x, y).sheenX in {0.0, 100.0}
    ensures y < r.top || y > r.top + r.height ==>
      Abs(FromMouse(o, r, x, y).rotateX) > o.maxTilt && FromMouse(o, r, x, y).sheenY in {0.0, 100.0}
    ensures (y < r.top || y > r.top + r.height) && r.left <= x <= r.left + r.width ==>
      FromMouse(o, r, x, y).sheenX == Percent(x, r.left, r.width)
  {
    var oy := Offset(y, r.top, r.height);
    if y < r.top || y > r.top + r.height {
      TimesBeyondUnit(oy, o.maxTilt);
    }
    RotationBounds(r, x, y, o.maxTilt);
  }

  /** A value scaled by a factor in [-1, 1] stays within the scale. */
  lemma ScaledInUnit(n: real, m: real, x: real)
    requires -1.0 <= n <= 1.0 && m >= 0.0
    requires x == n * m
    ensures -m <= x <= m
  {
    TimesUnit(n, m);
  }

  /** Orientation input never tilts past `maxTilt`. */
  lemma OrientationBounded(o: TiltOptions, beta: real, gamma: real)
    requires o.maxTilt >= 0.0
    ensures -o.maxTilt <= FromOrientation(o, beta, gamma).rotateX <= o.maxTilt
    ensures -o.maxTilt <= FromOrientation(o, beta, gamma).rotateY <= o.maxTilt
  {
    var t := FromOrientation(o, beta, gamma);
    ScaledInUnit(Normalize(beta), o.maxTilt, t.rotateX);
    ScaledInUnit(Normalize(gamma), o.maxTilt, t.rotateY);
  }

  /** A phone held past 45 degrees either way gets the full tilt that way. */
  lemma OrientationSaturates(o: TiltOptions, beta: real, gamma: real)
    ensures beta >= 45.0 ==> FromOrientation(o, beta, gamma).rotateX == o.maxTilt
    ensures beta <= -45.0 ==> FromOrientation(o, beta, gamma).rotateX == -o.maxTilt
    ensures gamma >= 45.0 ==> FromOrientation(o, beta, gamma).rotateY == o.maxTilt
    ensures gamma <= -45.0 ==> FromOrientation(o, beta, gamma).rotateY == -o.maxTilt
  {
  }

  /** The hook's state: whether the pointer is over the card, and the tilt. */
  datatype Hook = Hook(hovered: bool, tilt: TiltState)

  const Initial: Hook := Hook(false, Neutral)

  /** Events the hook listens to; a device orientation event may lack
      either angle. */
  datatype Event =
    | MouseEnter
    | MouseLeave
    | MouseMove(x: real, y: real)
    | Orientation(beta: Option<real>, gamma: Option<real>)

  /** One event, with `element` the card's rectangle when it is mounted.
      Without a mounted card no listener is registered, so nothing changes. */
  function Handle(o: TiltOptions, element: Option<Rect>, h: Hook, e: Event): (h': Hook)
    requires element.Some? ==> ValidRect(element.value)
    ensures element.None? ==> h' == h
    ensures element.Some? && e.MouseEnter? ==> h' == Hook(true, h.tilt)
    ensures element.Some? && e.MouseLeave? ==> h' == Hook(false, Neutral)
    ensures e.MouseMove? && !h.hovered ==> h' == h
    ensures element.Some? && e.MouseMove? && h.hovered ==>
      h' == Hook(true, FromMouse(o, element.value, e.x, e.y))
    ensures e.Orientation? && (e.beta.None? || e.gamma.None?) ==> h' == h
    ensures element.Some? && e.Orientation? && e.beta.Some? && e.gamma.Some? ==>
      h' == Hook(h.hovered, FromOrientation(o, e.beta.value, e.gamma.value))
  {
    match element
    case None => h
    case Some(r) =>
      match e
      case MouseEnter => h.(hovered := true)
      case MouseLeave => Hook(false, Neutral)
      case MouseMove(x, y) =>
        if h.hovered then h.(tilt := FromMouse(o, r, x, y)) else h
      case Orientation(beta, gamma) =>
        if beta.Some? && gamma.Some? then h.(tilt := FromOrientation(o, beta.value, gamma.value))
        else h
  }

  function Run(o: TiltOptions, element: Option<Rect>, h: Hook, es: seq<Event>): Hook
    requires element.Some? ==> ValidRect(element.value)
    decreases |es|
  {
    if |es| == 0 then h else Run(o, element, Handle(o, element, h, es[0]), es[1..])
  }

  /** The sheen's peak opacity is one of the three values the hook sets. */
  predicate KnownOpacity(o: TiltOptions, t: TiltState) {
    t.sheenOpacity == 0.0 ||
    (o.glare && (t.sheenOpacity == o.maxGlare || t.sheenOpacity == o.maxGlare * 0.7))
  }

  /** Whatever the events, the sheen stays on the card and its opacity is
      0, `maxGlare` or `0.7 * maxGlare`; with glare off it stays 0. */
  lemma {:induction false} RunKeepsSheen(o: TiltOptions, element: Option<Rect>, h: Hook, es: seq<Event>)
    requires element.Some? ==> ValidRect(element.value)
    requires SheenInside(h.tilt) && KnownOpacity(o, h.tilt)
    ensures SheenInside(Run(o, element, h, es).tilt)
    ensures KnownOpacity(o, Run(o, element, h, es).tilt)
    ensures !o.glare ==> Run(o, element, h, es).tilt.sheenOpacity == 0.0
    decreases |es|
  {
    if |es| > 0 {
      RunKeepsSheen(o, element, Handle(o, element, h, es[0]), es[1..]);
    }
  }

  /** Leaving the card undoes any tilt, whatever happened before. */
  lemma LeaveResets(o: TiltOptions, r: Rect, h: Hook, es: seq<Event>)
    requires ValidRect(r)
    ensures Handle(o, Some(r), Run(o, Some(r), h, es), MouseLeave) == Hook(false, Neutral)
  {
  }

  /** The sheen overlay's style: gradient angle, peak opacity, offset of
      the overlay in percent and its overall opacity. */
  datatype SheenStyle = SheenStyle(angle: real, peak: real, translateX: real, translateY: real, opacity: real)

  /** `sheenStyle`. */
  function Sheen(t: TiltState): (s: SheenStyle)
    ensures s.peak == t.sheenOpacity
    ensures s.opacity == 1.0 <==> t.sheenOpacity > 0.0
    ensures s.opacity == 0.0 <==> t.sheenOpacity <= 0.0
    ensures SheenInside(t) ==> -100.0 <= s.translateX <= 100.0 && -100.0 <= s.translateY <= 100.0
    ensures s.translateX > 0.0 <==> t.sheenX > 50.0
    ensures s.translateY > 0.0 <==> t.sheenY > 50.0
    ensures t.sheenX == 50.0 && t.sheenY == 50.0 ==> s.translateX == 0.0 && s.translateY == 0.0
  {
    SheenStyle(
      t.sheenX + t.sheenY, t.sheenOpacity,
      (t.sheenX - 50.0) * 2.0, (t.sheenY - 50.0) * 2.0,
      if t.sheenOpacity > 0.0 then 1.0 else 0.0)
  }

  /** The overlay shifts with the pointer: over the card, it moves by the
      pointer's offset from the centre, a full overlay width (height) at
      either edge; with orientation it moves by the normalised angle. */
  lemma SheenFollowsInput(o: TiltOptions, r: Rect, x: real, y: real, beta: real, gamma: real)
    requires ValidRect(r)
    ensures Inside(r, x, y) ==>
      Sheen(FromMouse(o, r, x, y)).translateX == Offset(x, r.left, r.width) * 100.0 &&
      Sheen(FromMouse(o, r, x, y)).translateY == Offset(y, r.top, r.height) * 100.0
    ensures Sheen(FromOrientation(o, beta, gamma)).translateX == Normalize(gamma) * 100.0
    ensures Sheen(FromOrientation(o, beta, gamma)).translateY == Normalize(beta) * 100.0
    ensures Sheen(FromMouse(o, r, x, y)).peak == if o.glare then o.maxGlare else 0.0
  {
    if Inside(r, x, y) {
      PercentIsShiftedOffset(x, r.left, r.width);
      PercentIsShiftedOffset(y, r.top, r.height);
    }
  }

  /** The card's transform. */
  function CardTransform(t: TiltState): (tr: Transform)
    ensures t == Neutral ==> tr == Flat
  {
    Transform(t.rotateX, t.rotateY, t.scale)
  }

  /** The transform follows the input: a mouse position gives the pointer
      rotation at the option's scale, and an orientation gives a rotation
      within `maxTilt` either way. */
  lemma CardTransformFollowsInput(o: TiltOptions, r: Rect, x: real, y: real, beta: real, gamma: real)
    requires ValidRect(r) && o.maxTilt >= 0.0
    ensures Rotation(CardTransform(FromMouse(o, r, x, y)).rotateX, CardTransform(FromMouse(o, r, x, y)).rotateY)
      == PointerRotation(r, x, y, o.maxTilt)
    ensures CardTransform(FromMouse(o, r, x, y)).scale == o.scale
    ensures -o.maxTilt <= CardTransform(FromOrientation(o, beta, gamma)).rotateX <= o.maxTilt
    ensures -o.maxTilt <= CardTransform(FromOrientation(o, beta, gamma)).rotateY <= o.maxTilt
  {
    OrientationBounded(o, beta, gamma);
  }

  /** At rest the card is flat and its sheen hidden; after a hovered move
      with glare on and a positive `maxGlare`, the sheen shows. */
  lemma SheenVisibility(o: TiltOptions, r: Rect, x: real, y: real)
    requires ValidRect(r)
    ensures Sheen(Neutral).opacity == 0.0 && CardTransform(Neutral) == Flat
    ensures Sheen(FromMouse(o, r, x, y)).opacity == 1.0 <==> o.glare && o.maxGlare > 0.0
  {
  }
}
