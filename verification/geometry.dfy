/** Pointer geometry shared by the three tilt hooks
    (client/hooks/use-card-tilt.tsx, use-holographic-card.tsx and
    use-3d-card-hover.tsx): the element's bounding rectangle, the pointer's
    offset from its centre, the rotation that offset produces, the CSS
    transform as a record and the hover transition rule. Arithmetic is on
    `real`. */
module Geometry {

  /** A bounding client rectangle. */
  datatype Rect = Rect(left: real, top: real, width: real, height: real)

  /** A laid-out element has a positive size; the hooks divide by it. */
  predicate ValidRect(r: Rect) {
    r.width > 0.0 && r.height > 0.0
  }

  predicate Inside(r: Rect, x: real, y: real) {
    r.left <= x <= r.left + r.width && r.top <= y <= r.top + r.height
  }

  function Abs(x: real): real {
    if x < 0.0 then -x else x
  }

  /** `(p - (start + size / 2)) / (size / 2)`: the pointer's offset from the
      centre along one axis, in half-sizes. */
  function Offset(p: real, start: real, size: real): (o: real)
    requires size > 0.0
    ensures o * (size / 2.0) == p - (start + size / 2.0)
    ensures o == 0.0 <==> p == start + size / 2.0
    ensures -1.0 <= o <= 1.0 <==> start <= p <= start + size
    ensures o < -1.0 <==> p < start
    ensures o > 1.0 <==> p > start + size
  {
    var half := size / 2.0;
    var o := (p - (start + half)) / half;
    assert o * half == p - (start + half);
    UnitCompare(o, half, p - (start + half));
    o
  }

  /** With `o * h == d` and `h` positive, `o` compares with -1, 0 and 1 as
      `d` does with -h, 0 and h. */
  lemma UnitCompare(o: real, h: real, d: real)
    requires h > 0.0 && o * h == d
    ensures o == 0.0 <==> d == 0.0
    ensures o < -1.0 <==> d < -h
    ensures o > 1.0 <==> d > h
  {
    ScaleCompare(o, h, 1.0);
    ScaleCompare(o, h, -1.0);
    ScaleCompare(o, h, 0.0);
  }

  /** Multiplying by a positive number keeps comparisons. */
  lemma ScaleCompare(a: real, h: real, k: real)
    requires h > 0.0
    ensures a <= k <==> a * h <= k * h
    ensures a < k <==> a * h < k * h
    ensures a == k <==> a * h == k * h
  {
    if a < k {
      assert (k - a) * h > 0.0;
    } else if a > k {
      assert (a - k) * h > 0.0;
    }
  }

  /** `(p - start) / size * 100`: the pointer's position along one axis as a
      percentage of the element's size. */
  function Percent(p: real, start: real, size: real): (pc: real)
    requires size > 0.0
    ensures pc * size == (p - start) * 100.0
    ensures 0.0 <= pc <= 100.0 <==> start <= p <= start + size
  {
    var pc := (p - start) / size * 100.0;
    assert pc * size == (p - start) * 100.0;
    ScaleCompare(pc, size, 0.0);
    ScaleCompare(pc, size, 100.0);
    assert 0.0 * size == 0.0;
    assert pc < 0.0 <==> p < start;
    assert 100.0 * size == size * 100.0;
    assert pc > 100.0 <==> (p - start) * 100.0 > size * 100.0;
    assert pc > 100.0 <==> p > start + size;
    pc
  }

  /** The percentage is the centre offset moved from [-1, 1] to [0, 100]. */
  lemma PercentIsShiftedOffset(p: real, start: real, size: real)
    requires size > 0.0
    ensures Percent(p, start, size) == 50.0 + Offset(p, start, size) * 50.0
  {
    var o := Offset(p, start, size);
    var pc := Percent(p, start, size);
    HalfScaled(p, start, size, o);
    CancelPositive(pc, 50.0 + o * 50.0, size, (p - start) * 100.0);
  }

  lemma CancelPositive(a: real, b: real, h: real, c: real)
    requires h > 0.0 && a * h == c && b * h == c
    ensures a == b
  {
    ScaleCompare(a, h, b);
  }

  lemma HalfScaled(p: real, start: real, size: real, o: real)
    requires size > 0.0
    requires o * (size / 2.0) == p - (start + size / 2.0)
    ensures (50.0 + o * 50.0) * size == (p - start) * 100.0
  {
    assert o * size == 2.0 * (o * (size / 2.0));
  }

  /** `Math.max(lo, Math.min(hi, x))`. */
  function Clamp(lo: real, hi: real, x: real): (c: real)
    requires lo <= hi
    ensures lo <= c <= hi
    ensures lo <= x <= hi ==> c == x
    ensures x < lo ==> c == lo
    ensures x > hi ==> c == hi
  {
    if x < lo then lo else if x > hi then hi else x
  }

  /** Rotation about the horizontal and the vertical axis, in degrees. */
  datatype Rotation = Rotation(rotateX: real, rotateY: real)

  /** The rotation all three hooks derive from a pointer at (x, y): the
      horizontal offset times `maxTilt` about the vertical axis, and the
      vertical offset times `-maxTilt` about the horizontal one. Each angle
      is proportional to the pointer's distance from the centre, reaching
      `maxTilt` at the edges and exceeding it beyond them; the element
      turns towards the pointer sideways and away from it vertically. */
  function PointerRotation(r: Rect, x: real, y: real, maxTilt: real): (rot: Rotation)
    requires ValidRect(r)
    ensures rot.rotateY * (r.width / 2.0) == (x - (r.left + r.width / 2.0)) * maxTilt
    ensures rot.rotateX * (r.height / 2.0) == -((y - (r.top + r.height / 2.0)) * maxTilt)
    ensures x == r.left + r.width / 2.0 && y == r.top + r.height / 2.0 ==> rot == Rotation(0.0, 0.0)
    ensures maxTilt >= 0.0 && Inside(r, x, y) ==> Abs(rot.rotateX) <= maxTilt && Abs(rot.rotateY) <= maxTilt
    ensures maxTilt > 0.0 && (x < r.left || x > r.left + r.width) ==> Abs(rot.rotateY) > maxTilt
    ensures maxTilt > 0.0 ==> (rot.rotateY > 0.0 <==> x > r.left + r.width / 2.0)
    ensures maxTilt > 0.0 ==> (rot.rotateX > 0.0 <==> y < r.top + r.height / 2.0)
  {
    var ox := Offset(x, r.left, r.width);
    var oy := Offset(y, r.top, r.height);
    AxisTilt(ox, maxTilt, r.width / 2.0, x - (r.left + r.width / 2.0));
    AxisTilt(oy, maxTilt, r.height / 2.0, y - (r.top + r.height / 2.0));
    Rotation(-oy * maxTilt, ox * maxTilt)
  }

  /** One axis of the pointer rotation: an offset `o` of `d` over the half
      size `h`, times `m`. */
  lemma AxisTilt(o: real, m: real, h: real, d: real)
    requires h > 0.0 && o * h == d
    ensures (o * m) * h == d * m
    ensures m >= 0.0 && -1.0 <= o <= 1.0 ==> Abs(o * m) <= m
    ensures m > 0.0 && (o < -1.0 || o > 1.0) ==> Abs(o * m) > m
    ensures m > 0.0 ==> (o * m > 0.0 <==> o > 0.0) && (o * m < 0.0 <==> o < 0.0)
  {
    assert (o * m) * h == (o * h) * m;
    if m >= 0.0 && -1.0 <= o <= 1.0 {
      TimesUnit(o, m);
    }
    if m > 0.0 && (o < -1.0 || o > 1.0) {
      TimesBeyondUnit(o, m);
    }
    if m > 0.0 {
      if o > 0.0 {
        assert o * m > 0.0;
      } else if o < 0.0 {
        assert o * m < 0.0;
      }
    }
  }

  /** The pointer at the centre leaves the element flat. */
  lemma CentreIsFlat(r: Rect, maxTilt: real)
    requires ValidRect(r)
    ensures PointerRotation(r, r.left + r.width / 2.0, r.top + r.height / 2.0, maxTilt)
      == Rotation(0.0, 0.0)
  {
  }

  /** Inside the element the rotation is at most `maxTilt` either way; it is
      not clamped, so a pointer beyond the left or right edge tilts further. */
  lemma RotationBounds(r: Rect, x: real, y: real, maxTilt: real)
    requires ValidRect(r) && maxTilt >= 0.0
    ensures Inside(r, x, y) ==>
      Abs(PointerRotation(r, x, y, maxTilt).rotateX) <= maxTilt &&
      Abs(PointerRotation(r, x, y, maxTilt).rotateY) <= maxTilt
    ensures maxTilt > 0.0 && (x < r.left || x > r.left + r.width) ==>
      Abs(PointerRotation(r, x, y, maxTilt).rotateY) > maxTilt
  {
    var ox := Offset(x, r.left, r.width);
    var oy := Offset(y, r.top, r.height);
    if Inside(r, x, y) {
      TimesUnit(ox, maxTilt);
      TimesUnit(oy, maxTilt);
    }
    if maxTilt > 0.0 && (x < r.left || x > r.left + r.width) {
      TimesBeyondUnit(ox, maxTilt);
    }
  }

  lemma TimesUnit(o: real, m: real)
    requires -1.0 <= o <= 1.0 && m >= 0.0
    ensures Abs(o * m) <= m
  {
    if o >= 0.0 {
      assert o * m <= 1.0 * m;
    } else {
      assert -o * m <= 1.0 * m;
    }
  }

  lemma TimesBeyondUnit(o: real, m: real)
    requires (o < -1.0 || o > 1.0) && m > 0.0
    ensures Abs(o * m) > m
  {
    if o > 1.0 {
      assert o * m > 1.0 * m;
    } else {
      assert -o * m > 1.0 * m;
    }
  }

  /** The pointer at the middle of the right edge gives the full tilt about
      the vertical axis and none about the horizontal one; above the centre
      the element tips back (positive `rotateX`), below it forward. */
  lemma EdgeAndSign(r: Rect, x: real, y: real, maxTilt: real)
    requires ValidRect(r) && maxTilt > 0.0
    ensures PointerRotation(r, r.left + r.width, r.top + r.height / 2.0, maxTilt)
      == Rotation(0.0, maxTilt)
    ensures y < r.top + r.height / 2.0 ==> PointerRotation(r, x, y, maxTilt).rotateX > 0.0
    ensures y > r.top + r.height / 2.0 ==> PointerRotation(r, x, y, maxTilt).rotateX < 0.0
  {
    var oy := Offset(y, r.top, r.height);
    assert Offset(r.left + r.width, r.left, r.width) == 1.0;
    if y < r.top + r.height / 2.0 {
      assert oy < 0.0;
      assert oy * maxTilt < 0.0;
    }
    if y > r.top + r.height / 2.0 {
      assert oy > 0.0;
      assert oy * maxTilt > 0.0;
    }
  }

  /** `perspective(1000px) rotateX(..deg) rotateY(..deg) scale(..)`. */
  datatype Transform = Transform(rotateX: real, rotateY: real, scale: real)

  /** `rotateX(0deg) rotateY(0deg) scale(1)`. */
  const Flat: Transform := Transform(0.0, 0.0, 1.0)

  /** The CSS `transition` of the card: none while hovered, so the card
      follows the pointer at once, otherwise an ease-out over `speed` ms. */
  datatype Transition = NoTransition | EaseOut(ms: real)

  function CardTransition(hovered: bool, speed: real): (t: Transition)
    ensures t.NoTransition? <==> hovered
    ensures t.EaseOut? ==> t.ms == speed
  {
    if hovered then NoTransition else EaseOut(speed)
  }
}
