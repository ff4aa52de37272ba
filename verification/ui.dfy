/** The immediate-mode sliders of framework/src/ui.cpp and include/lith/ui.h: a context keeps
    one entry per slider, keyed by the address of the float the slider edits (for `sliderInt`,
    its own local copy), drops the entries no slider call refreshed during the last frame, and
    drives each slider's drag state from the mouse.  Floats are modelled as reals, so the rounding of each float
    operation is not; the mouse and the frame time are parameters. */
module Ui {
  /** The look of a slider: the default member values of `SliderData`, never changed. */
  const SliderHeight: real := 0.05
  const GrabWidth: real := 0.2
  const GrabHeight: real := 0.2
  const GrabWidthVelocityMod: real := 0.5
  const GrabMinWidth: real := 0.06
  const GrabMaxWidth: real := 0.8

  /** The mouse as the sketch sees it this frame. */
  datatype Mouse = Mouse(x: real, y: real, pressed: bool, pressedOnce: bool)

  /** Where a slider is and what range it edits, set by every `slider` call. */
  datatype Placement = Placement(x: real, y: real, length: real, minValue: real,
                                 maxValue: real, lastFrameUsed: int)

  /** The state a slider carries from frame to frame. */
  datatype Drag = Drag(grabX: real, isDragging: bool, dragOffsetX: real, velocity: real)

  /** `SliderData`. */
  datatype SliderData = SliderData(place: Placement, drag: Drag)

  /** The drag state of a fresh entry: not dragging, no offset, no velocity. `grabX` has no
      initial value in the source and is written before it is read. */
  const FreshDrag: Drag := Drag(0.0, false, 0.0, 0.0)

  /** `clamp` of framework/src/math.cpp. */
  function Clamp(x: real, lo: real, hi: real): real
  {
    if x < lo then lo else if x > hi then hi else x
  }

  /** `lerpf` of framework/src/math.cpp. */
  function Lerp(a: real, b: real, w: real): real
  {
    a + w * (b - a)
  }

  /** `round`: to the nearest integer, halves away from zero. */
  function Round(r: real): int
  {
    if r >= 0.0 then (r + 0.5).Floor else -((-r + 0.5).Floor)
  }

  /** `v` lies between `a` and `b`, whichever is larger. */
  predicate Within(v: real, a: real, b: real)
  {
    (a <= v <= b) || (b <= v <= a)
  }

  /** `isRectHovered`: the mouse is in the rectangle, edges included. */
  function IsRectHovered(mouseX: real, mouseY: real, x: real, y: real, width: real, height: real): (b: bool)
  {
    mouseX >= x && mouseX <= x + width && mouseY >= y && mouseY <= y + height
  }

  /** The hover test includes all four edges: each corner of a rectangle of non-negative size
      is hovered, and so is every point on its border. */
  lemma HoverInclusive(x: real, y: real, width: real, height: real, t: real)
    requires width >= 0.0 && height >= 0.0 && 0.0 <= t <= 1.0
    ensures IsRectHovered(x, y, x, y, width, height)
    ensures IsRectHovered(x + width, y + height, x, y, width, height)
    ensures IsRectHovered(x + t * width, y, x, y, width, height)
    ensures IsRectHovered(x + t * width, y + height, x, y, width, height)
    ensures IsRectHovered(x, y + t * height, x, y, width, height)
    ensures IsRectHovered(x + width, y + t * height, x, y, width, height)
    ensures !IsRectHovered(x - 1.0, y, x, y, width, height)
  {
    assert 0.0 <= t * width <= width by { MulUnit(t, width); }
    assert 0.0 <= t * height <= height by { MulUnit(t, height); }
  }

  /** A fraction of a length lies between 0 and the length. */
  lemma MulUnit(t: real, d: real)
    requires 0.0 <= t <= 1.0
    ensures Within(t * d, 0.0, d)
  {
    if d >= 0.0 {
      assert t * d <= 1.0 * d;
    } else {
      assert t * (-d) <= 1.0 * (-d);
    }
  }

  /** A fraction `t` of the way from `a` to `b` lies between them. */
  lemma Between(t: real, a: real, b: real)
    requires 0.0 <= t <= 1.0
    ensures Within(t * (b - a) + a, a, b)
  {
    var d := b - a;
    MulUnit(t, d);
    var v := t * d;
    assert Within(v, 0.0, d);
    assert Within(v + a, a, b);
  }

  /** The value as a fraction of the slider's range. */
  function Scaled(value: real, p: Placement): real
    requires p.maxValue != p.minValue
  {
    (value - p.minValue) / (p.maxValue - p.minValue)
  }

  /** A fraction of the range mapped back to a value. */
  function Unscaled(fraction: real, p: Placement): real
  {
    fraction * (p.maxValue - p.minValue) + p.minValue
  }

  /** Scaling a value into its range and back gives the value again. */
  lemma ScaleBack(value: real, p: Placement)
    requires p.maxValue != p.minValue
    ensures Unscaled(Scaled(value, p), p) == value
  {
  }

  /** A value within the range scales into [0, 1]. */
  lemma ScaledUnit(value: real, p: Placement)
    requires p.maxValue != p.minValue && Within(value, p.minValue, p.maxValue)
    ensures 0.0 <= Scaled(value, p) <= 1.0
  {
    var d := p.maxValue - p.minValue;
    var s := Scaled(value, p);
    assert s * d == value - p.minValue;
    if d < 0.0 {
      assert (value - p.minValue) <= 0.0 && (value - p.minValue) >= d;
    }
  }

  /** The width of the grab handle, widened by the slider's velocity within its limits. */
  function GrabWidthFor(velocity: real): real
  {
    Clamp(GrabWidth + velocity * GrabWidthVelocityMod, GrabMinWidth, GrabMaxWidth)
  }

  /** The left edge of the grab handle: centred on the value's position along the slider. */
  function GrabXFor(p: Placement, fraction: real, grabWidth: real): real
  {
    p.x - grabWidth / 2.0 + p.length * fraction
  }

  /** The mouse is pressed this frame over the grab handle. */
  predicate Grabbed(m: Mouse, p: Placement, grabX: real, grabWidth: real)
  {
    m.pressedOnce && IsRectHovered(m.x, m.y, grabX, p.y - GrabHeight / 2.0, grabWidth, GrabHeight)
  }

  /** The fraction a drag with offset `offset` gives for the mouse at `mouseX`. */
  function Dragged(p: Placement, mouseX: real, offset: real): real
    requires p.length != 0.0
  {
    Clamp((mouseX - p.x - offset) / p.length, 0.0, 1.0)
  }

  /** The value a slider being dragged writes: the fraction of the mouse position, less the
      entry's drag offset, along the slider, taken back into the range. */
  function DraggedValue(s: SliderData, mouseX: real): real
    requires s.place.length != 0.0
  {
    Unscaled(Dragged(s.place, mouseX, s.drag.dragOffsetX), s.place)
  }

  /** Grabbing the handle does not move the value: the offset recorded when a drag starts
      makes the dragged fraction that of the value itself, wherever on the handle the mouse
      is. */
  lemma GrabKeepsValue(value: real, p: Placement, grabWidth: real, mouseX: real)
    requires p.maxValue != p.minValue && p.length != 0.0 && Within(value, p.minValue, p.maxValue)
    ensures var grabX := GrabXFor(p, Scaled(value, p), grabWidth);
      Unscaled(Dragged(p, mouseX, mouseX - grabX - grabWidth / 2.0), p) == value
  {
    var sc := Scaled(value, p);
    var grabX := GrabXFor(p, sc, grabWidth);
    var offset := mouseX - grabX - grabWidth / 2.0;
    assert mouseX - p.x - offset == p.length * sc;
    assert (mouseX - p.x - offset) / p.length == sc;
    ScaledUnit(value, p);
    ScaleBack(value, p);
  }

  /** `sliderBehavior` without its drawing: the grab handle is placed at the value; a drag
      starts when the mouse is first pressed over the handle and ends as soon as it is
      released; while dragging the value follows the mouse, clamped to the range; the
      velocity picks up the change and decays with the frame time. */
  method SliderBehavior(value: real, s: SliderData, m: Mouse, deltaTime: real)
    returns (written: real, t: SliderData, dragging: bool)
    requires s.place.maxValue != s.place.minValue && s.place.length != 0.0
    ensures t.place == s.place && dragging == t.drag.isDragging
    ensures t.drag.grabX == GrabXFor(s.place, Scaled(value, s.place), GrabWidthFor(s.drag.velocity))
    ensures dragging && !s.drag.isDragging ==>
      Grabbed(m, s.place, t.drag.grabX, GrabWidthFor(s.drag.velocity))
    ensures (!s.drag.isDragging && m.pressed &&
             Grabbed(m, s.place, t.drag.grabX, GrabWidthFor(s.drag.velocity))) ==> dragging
    ensures dragging ==> m.pressed
    ensures s.drag.isDragging && m.pressed ==> dragging
    ensures dragging ==> Within(written, s.place.minValue, s.place.maxValue)
    ensures !dragging ==> written == value && t.drag.velocity == s.drag.velocity * (1.0 - deltaTime * 12.0)
    ensures dragging ==> written == Unscaled(Dragged(s.place, m.x, t.drag.dragOffsetX), s.place)
    ensures dragging && !s.drag.isDragging && Within(value, s.place.minValue, s.place.maxValue) ==>
      written == value
  {
    var p := s.place;
    var valueScaled := Scaled(value, p);
    var grabWidth := GrabWidthFor(s.drag.velocity);
    var grabX := GrabXFor(p, valueScaled, grabWidth);
    var isDragging := s.drag.isDragging;
    var dragOffsetX := s.drag.dragOffsetX;
    if !isDragging {
      isDragging := Grabbed(m, p, grabX, grabWidth);
      if isDragging {
        dragOffsetX := m.x - grabX - grabWidth / 2.0;
      }
    }
    if isDragging && !m.pressed {
      isDragging := false;
    }
    var lastValue := valueScaled;
    if isDragging {
      valueScaled := Dragged(p, m.x, dragOffsetX);
    }
    var velocity := Lerp(s.drag.velocity + (valueScaled - lastValue), 0.0, deltaTime * 12.0);
    written := Unscaled(valueScaled, p);
    t := SliderData(p, Drag(grabX, isDragging, dragOffsetX, velocity));
    dragging := isDragging;
    if dragging {
      Between(valueScaled, p.minValue, p.maxValue);
      if !s.drag.isDragging && Within(value, p.minValue, p.maxValue) {
        GrabKeepsValue(value, p, grabWidth, m.x);
      }
    } else {
      ScaleBack(value, p);
    }
  }

  /** The entries a tick keeps: those used during `frame`. */
  function Live(sliders: map<int, SliderData>, frame: int): map<int, SliderData>
  {
    map k | k in sliders && sliders[k].place.lastFrameUsed == frame :: sliders[k]
  }

  /** A tick keeps exactly the entries refreshed in the frame it ends, unchanged; an entry that
      no slider call refreshes in the next frame is gone after the next tick. */
  lemma LiveExactly(sliders: map<int, SliderData>, frame: int, key: int)
    ensures key in Live(sliders, frame) <==> key in sliders && sliders[key].place.lastFrameUsed == frame
    ensures key in Live(sliders, frame) ==> Live(sliders, frame)[key] == sliders[key]
    ensures key !in Live(Live(sliders, frame), frame + 1)
  {
  }

  /** The erase loop of `lithTickUI`. */
  method EraseStale(sliders: map<int, SliderData>, frame: int) returns (kept: map<int, SliderData>)
    ensures kept == Live(sliders, frame)
  {
    kept := sliders;
    var remaining := sliders.Keys;
    while remaining != {}
      invariant remaining <= sliders.Keys
      invariant kept.Keys <= sliders.Keys
      invariant forall k :: k in kept ==> kept[k] == sliders[k]
      invariant forall k :: k in sliders && k !in remaining ==>
        (k in kept <==> sliders[k].place.lastFrameUsed == frame)
      invariant remaining <= kept.Keys
      decreases |remaining|
    {
      SomeKey(remaining);
      var k :| k in remaining;
      if kept[k].place.lastFrameUsed != frame {
        kept := kept - {k};
      }
      remaining := remaining - {k};
    }
    forall k | k in sliders
      ensures k in kept <==> k in Live(sliders, frame)
    {
    }
    assert kept.Keys == Live(sliders, frame).Keys;
    assert forall k :: k in kept ==> kept[k] == Live(sliders, frame)[k];
  }

  /** A non-empty set of keys has a member. */
  lemma SomeKey(keys: set<int>)
    requires keys != {}
    ensures exists k :: k in keys
  {
    assert (forall k :: k !in keys) ==> keys == {};
  }

  /** `UIContext`: the slider entries and the frame counter. */
  class UIContext {
    var sliders: map<int, SliderData>
    var frame: int

    constructor ()
      ensures sliders == map[] && frame == 0
    {
      sliders, frame := map[], 0;
    }

    /** `lithTickUI`: entries not used during this frame are erased, then the frame
        advances. */
    method Tick()
      modifies this
      ensures sliders == Live(old(sliders), old(frame)) && frame == old(frame) + 1
    {
      var kept := EraseStale(sliders, frame);
      sliders, frame := kept, frame + 1;
    }

    /** `slider`: the entry keyed by the value's address is created if need be, placed and
        stamped with this frame, then driven by `sliderBehavior`; the other entries stay. */
    method Slider(key: int, value: real, min: real, max: real, x: real, y: real, length: real,
                  m: Mouse, deltaTime: real)
      returns (written: real, dragging: bool)
      requires min != max && length != 0.0
      modifies this
      ensures frame == old(frame) && sliders.Keys == old(sliders).Keys + {key}
      ensures forall k :: k in old(sliders) && k != key ==> sliders[k] == old(sliders)[k]
      ensures sliders[key].place == Placement(x, y, length, min, max, frame)
      ensures sliders[key].drag.isDragging == dragging
      ensures (key !in old(sliders) || !old(sliders)[key].drag.isDragging) && !m.pressedOnce ==> !dragging
      ensures key in old(sliders) && old(sliders)[key].drag.isDragging && m.pressed ==> dragging
      ensures dragging ==> m.pressed && Within(written, min, max)
      ensures dragging ==> written == DraggedValue(sliders[key], m.x)
      ensures !dragging ==> written == value
    {
      var drag := if key in sliders then sliders[key].drag else FreshDrag;
      var data := SliderData(Placement(x, y, length, min, max, frame), drag);
      var t;
      written, t, dragging := SliderBehavior(value, data, m, deltaTime);
      sliders := sliders[key := t];
    }

    /** `sliderInt`: the slider edits the value as a float and the result is rounded back;
        a value not being dragged comes back unchanged and a dragged one stays in the range.
        `key` is the entry the call drives.  As written it is the address of `sliderInt`'s
        own local `valueF`, which is the same for every call from one caller, so such calls
        share one entry (`IntSlidersShareEntry`); keyed by the caller's `int*`, each slider
        keeps its own (`IntSlidersSeparate`). */
    method SliderInt(key: int, value: int, min: int, max: int, x: real, y: real, length: real,
                     m: Mouse, deltaTime: real)
      returns (result: int, dragging: bool)
      requires min != max && length != 0.0
      modifies this
      ensures frame == old(frame) && sliders.Keys == old(sliders).Keys + {key}
      ensures forall k :: k in old(sliders) && k != key ==> sliders[k] == old(sliders)[k]
      ensures sliders[key].place == Placement(x, y, length, min as real, max as real, frame)
      ensures sliders[key].drag.isDragging == dragging && (dragging ==> m.pressed)
      ensures (key !in old(sliders) || !old(sliders)[key].drag.isDragging) && !m.pressedOnce ==> !dragging
      ensures key in old(sliders) && old(sliders)[key].drag.isDragging && m.pressed ==> dragging
      ensures !dragging ==> result == value
      ensures dragging ==> result == Round(DraggedValue(sliders[key], m.x))
      ensures dragging && min <= max ==> min <= result <= max
      ensures dragging && max <= min ==> max <= result <= min
    {
      var written;
      written, dragging := Slider(key, value as real, min as real, max as real, x, y, length, m, deltaTime);
      result := Round(written);
      RoundInteger(value);
      if dragging {
        RoundInteger(min);
        RoundInteger(max);
        if min as real <= written <= max as real {
          RoundMonotone(min as real, written);
          RoundMonotone(written, max as real);
        } else {
          RoundMonotone(max as real, written);
          RoundMonotone(written, min as real);
        }
      }
    }

    /** As written: two `sliderInt` calls from one caller in one frame drive the same entry.
        Once the first slider is being dragged, so is the second, and its value becomes the
        mouse position along the second slider, whatever value it was given. */
    method IntSlidersShareEntry(localKey: int, a: int, b: int, min: int, max: int, x: real,
                                yA: real, yB: real, length: real, m: Mouse, deltaTime: real)
      returns (ra: int, rb: int, draggingA: bool, draggingB: bool)
      requires min != max && length != 0.0
      modifies this
      ensures sliders.Keys == old(sliders).Keys + {localKey}
      ensures sliders[localKey].place == Placement(x, yB, length, min as real, max as real, frame)
      ensures draggingA ==> draggingB
      ensures draggingB ==> rb == Round(DraggedValue(sliders[localKey], m.x))
    {
      ra, draggingA := SliderInt(localKey, a, min, max, x, yA, length, m, deltaTime);
      rb, draggingB := SliderInt(localKey, b, min, max, x, yB, length, m, deltaTime);
    }

    /** As evidently intended, keyed by the callers' own values: the first slider's call
        leaves the second slider's entry alone, so a second slider not already being dragged
        comes back unchanged unless the mouse was just pressed. */
    method IntSlidersSeparate(keyA: int, keyB: int, a: int, b: int, min: int, max: int, x: real,
                              yA: real, yB: real, length: real, m: Mouse, deltaTime: real)
      returns (ra: int, rb: int, draggingA: bool, draggingB: bool)
      requires keyA != keyB && min != max && length != 0.0
      modifies this
      ensures sliders.Keys == old(sliders).Keys + {keyA, keyB}
      ensures sliders[keyA].place == Placement(x, yA, length, min as real, max as real, frame)
      ensures sliders[keyB].place == Placement(x, yB, length, min as real, max as real, frame)
      ensures (keyB !in old(sliders) || !old(sliders)[keyB].drag.isDragging) && !m.pressedOnce ==>
                !draggingB && rb == b
    {
      ra, draggingA := SliderInt(keyA, a, min, max, x, yA, length, m, deltaTime);
      rb, draggingB := SliderInt(keyB, b, min, max, x, yB, length, m, deltaTime);
    }
  }

  /** Rounding an integer gives it back. */
  lemma RoundInteger(n: int)
    ensures Round(n as real) == n
  {
    if n < 0 {
      assert (-(n as real) + 0.5).Floor == -n;
    } else {
      assert ((n as real) + 0.5).Floor == n;
    }
  }

  /** Rounding keeps order. */
  lemma RoundMonotone(a: real, b: real)
    requires a <= b
    ensures Round(a) <= Round(b)
  {
  }
}
