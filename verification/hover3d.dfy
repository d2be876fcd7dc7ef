/** The plain 3D hover hook of client/hooks/use-3d-card-hover.tsx: the
    same pointer tilt as the holographic card, without overlays or filter. */
module Hover3D {
  import opened Wrappers
  import opened Geometry
  import Holographic

  datatype HoverOptions = HoverOptions(maxTilt: real, scale: real, speed: real)

  /** The defaults: 15 degrees, 1.05, 300 ms. */
  const DefaultOptions: HoverOptions := HoverOptions(15.0, 1.05, 300.0)

  /** Whether the pointer is over the card, and the transform once set. */
  datatype HoverState = HoverState(hovered: bool, transform: Option<Transform>)

  const Initial: HoverState := HoverState(false, None)

  datatype Event = MouseEnter | MouseLeave | MouseMove(x: real, y: real)

  /** One event. A move with no mounted card does nothing; otherwise it
      tilts the card towards the pointer and scales it. Leaving makes it flat
      and unscaled. */
  function Handle(o: HoverOptions, element: Option<Rect>, s: HoverState, e: Event): (s': HoverState)
    requires element.Some? ==> ValidRect(element.value)
    ensures e.MouseMove? && element.None? ==> s' == s
    ensures e.MouseMove? && element.Some? ==>
      s'.hovered == s.hovered && s'.transform.Some? &&
      Rotation(s'.transform.value.rotateX, s'.transform.value.rotateY)
        == PointerRotation(element.value, e.x, e.y, o.maxTilt) &&
      s'.transform.value.scale == o.scale
    ensures e.MouseEnter? ==> s' == HoverState(true, s.transform)
    ensures e.MouseLeave? ==> s' == HoverState(false, Some(Flat))
  {
    match e
    case MouseEnter => s.(hovered := true)
    case MouseLeave => HoverState(false, Some(Flat))
    case MouseMove(x, y) =>
      match element
      case None => s
      case Some(r) =>
        var rot := PointerRotation(r, x, y, o.maxTilt);
        s.(transform := Some(Transform(rot.rotateX, rot.rotateY, o.scale)))
  }

  function Run(o: HoverOptions, element: Option<Rect>, s: HoverState, es: seq<Event>): HoverState
    requires element.Some? ==> ValidRect(element.value)
    decreases |es|
  {
    if |es| == 0 then s else Run(o, element, Handle(o, element, s, es[0]), es[1..])
  }

  /** The card's `transition`: none while hovered, an ease-out otherwise. */
  function Transition(o: HoverOptions, s: HoverState): (t: Transition)
    ensures t == NoTransition <==> s.hovered
    ensures !s.hovered ==> t == EaseOut(o.speed)
  {
    CardTransition(s.hovered, o.speed)
  }

  /** The pointer at the centre leaves the card flat but scaled. */
  lemma MoveToCentre(o: HoverOptions, r: Rect, s: HoverState)
    requires ValidRect(r)
    ensures Handle(o, Some(r), s, MouseMove(r.left + r.width / 2.0, r.top + r.height / 2.0)).transform
      == Some(Transform(0.0, 0.0, o.scale))
  {
    CentreIsFlat(r, o.maxTilt);
  }

  /** The holographic card's option set with this hook's tilt, scale and speed. */
  function AsHolographic(o: HoverOptions, glare: real, shine: real): Holographic.HoloOptions {
    Holographic.HoloOptions(o.maxTilt, o.scale, o.speed, glare, shine)
  }

  function HoloEvent(e: Event): Holographic.Event {
    match e
    case MouseEnter => Holographic.MouseEnter
    case MouseLeave => Holographic.MouseLeave
    case MouseMove(x, y) => Holographic.MouseMove(x, y)
  }

  function HoloEvents(es: seq<Event>): (hs: seq<Holographic.Event>)
    ensures |hs| == |es|
    ensures forall i :: 0 <= i < |es| ==> hs[i] == HoloEvent(es[i])
  {
    seq(|es|, i requires 0 <= i < |es| => HoloEvent(es[i]))
  }

  /** The two states agree on hover and transform. */
  predicate Agree(s: HoverState, h: Holographic.HoloState) {
    s.hovered == h.hovered && s.transform == h.transform
  }

  /** Under any sequence of events this hook and the holographic card with
      the same tilt, scale and speed agree on hover, transform and card
      transition, whatever the glare and shine intensities. */
  lemma {:induction false} SameTiltAsHolographic(o: HoverOptions, glare: real, shine: real,
      element: Option<Rect>, s: HoverState, h: Holographic.HoloState, es: seq<Event>)
    requires element.Some? ==> ValidRect(element.value)
    requires Agree(s, h)
    ensures Agree(Run(o, element, s, es), Holographic.Run(AsHolographic(o, glare, shine), element, h, HoloEvents(es)))
    ensures Transition(o, Run(o, element, s, es)) ==
      Holographic.Style(AsHolographic(o, glare, shine),
        Holographic.Run(AsHolographic(o, glare, shine), element, h, HoloEvents(es))).transition
    decreases |es|
  {
    var ho := AsHolographic(o, glare, shine);
    if |es| > 0 {
      var s1 := Handle(o, element, s, es[0]);
      var h1 := Holographic.Handle(ho, element, h, HoloEvent(es[0]));
      assert Agree(s1, h1);
      assert HoloEvents(es)[1..] == HoloEvents(es[1..]);
      SameTiltAsHolographic(o, glare, shine, element, s1, h1, es[1..]);
    }
  }
}
