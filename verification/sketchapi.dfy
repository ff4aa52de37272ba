/** The per-frame input bookkeeping of src/sketchapi.cpp: `__nextFrame` drains the events the
    runtime sent in, updating the key table, the last pressed key, the mouse and the window
    size, then gates the sketch's `draw` on a frame-time accumulator; `__endFrame` clears the
    one-frame flags.  Mouse events carry world coordinates here (the camera conversion is not
    modelled), times are `real`, and the viewport size and the sketch's clock come in as
    parameters. */
module SketchApi {

  /** The size of the `keyDown` table. */
  const KeyCount: int := 512

  /** `lithEvent`, with the fields the sketch API reads. */
  datatype Event =
    | WindowResize(width: int, height: int)
    | WindowTitle(title: string)
    | WindowVSync(interval: int)
    | Exit(code: int)
    | RecompilePlugin
    | Key(keycode: int, key: char, state: bool, alt: bool)
    | Mouse(worldX: real, worldY: real, buttonLeft: bool)
    | Controller
    | Input

  /** An event `keyDown` can be indexed with. */
  predicate Indexable(e: Event)
  {
    e.Key? ==> 0 <= e.keycode < KeyCount
  }

  /** The keyboard globals: `keyDown`, `keyCode`, `keyCodeOnce` and `s_keyCodeOnceLast`. */
  datatype Keys = Keys(down: seq<bool>, code: int, once: int, onceLast: int)

  /** The mouse globals: `mouseX`/`mouseY`, `pmouseX`/`pmouseY`, `mousePressed`,
      `mousePressedOnce` and `s_mousePressedOnceLast`. */
  datatype Pointer = Pointer(x: real, y: real, px: real, py: real, pressed: bool, once: bool, onceLast: bool)

  /** What a key event does to the keyboard globals. */
  function KeyStep(ks: Keys, e: Event): (r: Keys)
    requires |ks.down| == KeyCount && Indexable(e)
    ensures |r.down| == KeyCount
  {
    if !e.Key? then ks
    else
      var table := ks.(down := ks.down[e.keycode := e.state]);
      if !e.state then table.(onceLast := 0)
      else if ks.onceLast != e.keycode then table.(code := e.keycode, onceLast := e.keycode, once := e.keycode)
      else table.(code := e.keycode)
  }

  /** What a mouse event does to the mouse globals. */
  function PointerStep(m: Pointer, e: Event): Pointer
  {
    if !e.Mouse? then m
    else
      var moved := m.(x := e.worldX, y := e.worldY, pressed := e.buttonLeft);
      if m.onceLast != e.buttonLeft then moved.(onceLast := e.buttonLeft, once := e.buttonLeft) else moved
  }

  /** What a resize event does to `width` and `height`. */
  function SizeStep(size: (real, real), e: Event): (real, real)
  {
    if e.WindowResize? then (e.width as real, e.height as real) else size
  }

  /** What an event sends out: a recompile request for Alt+'r'. */
  function Sent(e: Event): seq<Event>
  {
    if e.Key? && e.key == 'r' && e.alt then [RecompilePlugin] else []
  }

  /** Whether every event can be handled. */
  predicate AllIndexable(es: seq<Event>)
  {
    forall i :: 0 <= i < |es| ==> Indexable(es[i])
  }

  /** A prefix of handleable events is handleable. */
  lemma IndexablePrefix(es: seq<Event>, n: nat)
    requires AllIndexable(es) && n <= |es|
    ensures AllIndexable(es[..n])
  {
    assert forall i :: 0 <= i < n ==> es[..n][i] == es[i];
  }

  /** The keyboard globals after the event loop of `__nextFrame`. */
  function KeysAfter(ks: Keys, es: seq<Event>): (r: Keys)
    requires |ks.down| == KeyCount && AllIndexable(es)
    ensures |r.down| == KeyCount
    decreases |es|
  {
    if es == [] then ks
    else
      IndexablePrefix(es, |es| - 1);
      KeyStep(KeysAfter(ks, es[..|es| - 1]), es[|es| - 1])
  }

  /** The mouse globals after the event loop. */
  function PointerAfter(m: Pointer, es: seq<Event>): Pointer
    decreases |es|
  {
    if es == [] then m else PointerStep(PointerAfter(m, es[..|es| - 1]), es[|es| - 1])
  }

  /** The window size after the event loop. */
  function SizeAfter(size: (real, real), es: seq<Event>): (real, real)
    decreases |es|
  {
    if es == [] then size else SizeStep(SizeAfter(size, es[..|es| - 1]), es[|es| - 1])
  }

  /** What the event loop sends out. */
  function SentAll(es: seq<Event>): seq<Event>
    decreases |es|
  {
    if es == [] then [] else SentAll(es[..|es| - 1]) + Sent(es[|es| - 1])
  }

  /** `__endFrame` on the keyboard globals. */
  function EndKeys(ks: Keys): Keys { ks.(code := 0, once := 0) }

  /** `__endFrame` on the mouse globals. */
  function EndPointer(m: Pointer): Pointer { m.(px := m.x, py := m.y, once := false) }

  /** The events sent out are exactly one recompile request per Alt+'r' key event, in order. */
  lemma {:induction false} SentRecompiles(es: seq<Event>)
    ensures forall e :: e in SentAll(es) ==> e == RecompilePlugin
    ensures |SentAll(es)| == |set i | 0 <= i < |es| && es[i].Key? && es[i].key == 'r' && es[i].alt|
    decreases |es|
  {
    if es != [] {
      var n := |es| - 1;
      SentRecompiles(es[..n]);
      var before := set i | 0 <= i < n && es[..n][i].Key? && es[..n][i].key == 'r' && es[..n][i].alt;
      var now := set i | 0 <= i < |es| && es[i].Key? && es[i].key == 'r' && es[i].alt;
      assert before == set i | 0 <= i < n && es[i].Key? && es[i].key == 'r' && es[i].alt;
      if es[n].Key? && es[n].key == 'r' && es[n].alt {
        assert now == before + {n};
      } else {
        assert now == before;
      }
    }
  }

  /** After the loop, `keyDown[k]` is the state of the last key event for `k`, or unchanged
      when there is none. */
  lemma {:induction false} KeyDownLast(ks: Keys, es: seq<Event>, k: int)
    requires |ks.down| == KeyCount && AllIndexable(es) && 0 <= k < KeyCount
    ensures (forall i :: 0 <= i < |es| ==> !(es[i].Key? && es[i].keycode == k)) ==>
              KeysAfter(ks, es).down[k] == ks.down[k]
    ensures forall i :: 0 <= i < |es| && es[i].Key? && es[i].keycode == k &&
                        (forall j :: i < j < |es| ==> !(es[j].Key? && es[j].keycode == k)) ==>
              KeysAfter(ks, es).down[k] == es[i].state
    decreases |es|
  {
    if es != [] {
      var n := |es| - 1;
      IndexablePrefix(es, n);
      KeyDownLast(ks, es[..n], k);
      var prev := KeysAfter(ks, es[..n]);
      var hit := es[n].Key? && es[n].keycode == k;
      assert KeysAfter(ks, es).down[k] == if hit then es[n].state else prev.down[k];
      forall i | 0 <= i < |es| && es[i].Key? && es[i].keycode == k &&
                 (forall j :: i < j < |es| ==> !(es[j].Key? && es[j].keycode == k))
        ensures KeysAfter(ks, es).down[k] == es[i].state
      {
        if i < n {
          assert !hit;
          assert es[..n][i] == es[i];
          assert forall j :: i < j < n ==> es[..n][j] == es[j];
        }
      }
      if forall i :: 0 <= i < |es| ==> !(es[i].Key? && es[i].keycode == k) {
        assert !hit;
        assert forall i :: 0 <= i < n ==> es[..n][i] == es[i];
      }
    }
  }

  /** `keyCodeOnce` reports a key once per hold: the first press of `k` reports it, a repeated
      press in a later frame does not, and a press after a release reports it again. */
  lemma PressOncePerHold(ks: Keys, k: int, c: char)
    requires |ks.down| == KeyCount && 0 < k < KeyCount && ks.onceLast != k
    ensures var first := KeyStep(ks, Key(k, c, true, false));
            first.once == k && first.code == k &&
            KeyStep(EndKeys(first), Key(k, c, true, false)).once == 0 &&
            KeyStep(EndKeys(first), Key(k, c, true, false)).code == k &&
            KeyStep(KeyStep(EndKeys(first), Key(k, c, false, false)), Key(k, c, true, false)).once == k
  {
  }

  /** `mousePressedOnce` is set only on a change of the left button: holding it through a later
      frame does not set it again, and a press after a release does. */
  lemma MouseOncePerPress(m: Pointer, x: real, y: real)
    requires !m.onceLast
    ensures var pressed := PointerStep(m, Mouse(x, y, true));
            pressed.once && pressed.pressed &&
            !PointerStep(EndPointer(pressed), Mouse(x, y, true)).once &&
            PointerStep(PointerStep(EndPointer(pressed), Mouse(x, y, false)), Mouse(x, y, true)).once
  {
  }

  /** The sketch API's globals. */
  class Sketch {
    const keyDown: array<bool>
    var keyCode: int
    var keyCodeOnce: int
    var keyCodeOnceLast: int
    var mouseX: real
    var mouseY: real
    var pmouseX: real
    var pmouseY: real
    var mousePressed: bool
    var mousePressedOnce: bool
    var mousePressedOnceLast: bool
    var width: real
    var height: real
    var deltaTime: real
    var totalTime: real
    var looping: bool
    var loopTime: real
    var loopTimeAcc: real
    var inEvents: seq<Event>
    var outEvents: seq<Event>

    /** The key table has its fixed size. */
    predicate Valid()
      reads this
    {
      keyDown.Length == KeyCount
    }

    /** The keyboard globals as a value. */
    function KeyState(): (ks: Keys)
      reads this, keyDown
      ensures |ks.down| == keyDown.Length
    {
      Keys(keyDown[..], keyCode, keyCodeOnce, keyCodeOnceLast)
    }

    /** The mouse globals as a value. */
    function PointerState(): Pointer
      reads this
    {
      Pointer(mouseX, mouseY, pmouseX, pmouseY, mousePressed, mousePressedOnce, mousePressedOnceLast)
    }

    /** The static initialisers: everything zero or false, looping on. */
    constructor ()
      ensures Valid() && fresh(keyDown)
      ensures forall k :: 0 <= k < KeyCount ==> !keyDown[k]
      ensures keyCode == 0 && keyCodeOnce == 0 && keyCodeOnceLast == 0 && !mousePressed && !mousePressedOnce
      ensures looping && loopTime == 0.0 && loopTimeAcc == 0.0 && inEvents == [] && outEvents == []
    {
      keyDown := new bool[KeyCount](_ => false);
      keyCode, keyCodeOnce, keyCodeOnceLast := 0, 0, 0;
      mouseX, mouseY, pmouseX, pmouseY := 0.0, 0.0, 0.0, 0.0;
      mousePressed, mousePressedOnce, mousePressedOnceLast := false, false, false;
      width, height, deltaTime, totalTime := 0.0, 0.0, 0.0, 0.0;
      looping, loopTime, loopTimeAcc := true, 0.0, 0.0;
      inEvents, outEvents := [], [];
    }

    /** `noLoop`. */
    method NoLoop()
      modifies this
      ensures !looping && loopTime == old(loopTime) && loopTimeAcc == old(loopTimeAcc)
      ensures KeyState() == old(KeyState()) && PointerState() == old(PointerState())
      ensures width == old(width) && height == old(height) && deltaTime == old(deltaTime) && totalTime == old(totalTime)
      ensures inEvents == old(inEvents) && outEvents == old(outEvents)
    {
      looping := false;
    }

    /** `loop`. */
    method Loop()
      modifies this
      ensures looping && loopTime == old(loopTime) && loopTimeAcc == old(loopTimeAcc)
      ensures KeyState() == old(KeyState()) && PointerState() == old(PointerState())
      ensures width == old(width) && height == old(height) && deltaTime == old(deltaTime) && totalTime == old(totalTime)
      ensures inEvents == old(inEvents) && outEvents == old(outEvents)
    {
      looping := true;
    }

    /** `fps`: the frame time for a frame limit; a limit of 0 (an infinite frame time in
        floating point) is not modelled. */
    method Fps(frameLimit: int)
      requires frameLimit != 0
      modifies this
      ensures loopTime == 1.0 / frameLimit as real && looping == old(looping) && loopTimeAcc == old(loopTimeAcc)
      ensures KeyState() == old(KeyState()) && PointerState() == old(PointerState())
      ensures width == old(width) && height == old(height) && deltaTime == old(deltaTime) && totalTime == old(totalTime)
      ensures inEvents == old(inEvents) && outEvents == old(outEvents)
    {
      loopTime := 1.0 / frameLimit as real;
    }

    /** One turn of the event loop. */
    method HandleEvent(e: Event)
      requires Valid() && Indexable(e)
      modifies this, keyDown
      ensures Valid() && KeyState() == KeyStep(old(KeyState()), e) && PointerState() == PointerStep(old(PointerState()), e)
      ensures (width, height) == SizeStep((old(width), old(height)), e) && outEvents == old(outEvents) + Sent(e)
      ensures inEvents == old(inEvents) && looping == old(looping) && loopTime == old(loopTime)
      ensures loopTimeAcc == old(loopTimeAcc) && deltaTime == old(deltaTime) && totalTime == old(totalTime)
    {
      if e.Key? {
        HandleKey(e.keycode, e.key, e.state, e.alt);
      } else if e.Mouse? {
        HandleMouse(e.worldX, e.worldY, e.buttonLeft);
      } else if e.WindowResize? {
        width, height := e.width as real, e.height as real;
      }
    }

    /** The `lithMouse` case. */
    method HandleMouse(x: real, y: real, left: bool)
      modifies this
      ensures PointerState() == PointerStep(old(PointerState()), Mouse(x, y, left))
      ensures keyCode == old(keyCode) && keyCodeOnce == old(keyCodeOnce) && keyCodeOnceLast == old(keyCodeOnceLast)
      ensures outEvents == old(outEvents) && width == old(width) && height == old(height)
      ensures inEvents == old(inEvents) && looping == old(looping) && loopTime == old(loopTime)
      ensures loopTimeAcc == old(loopTimeAcc) && deltaTime == old(deltaTime) && totalTime == old(totalTime)
    {
      mouseX, mouseY := x, y;
      mousePressed := left;
      if mousePressedOnceLast != mousePressed {
        mousePressedOnceLast := mousePressed;
        mousePressedOnce := mousePressed;
      }
    }

    /** The `lithKey` case. */
    method HandleKey(k: int, c: char, down: bool, alt: bool)
      requires Valid() && 0 <= k < KeyCount
      modifies this, keyDown
      ensures Valid() && KeyState() == KeyStep(old(KeyState()), Key(k, c, down, alt))
      ensures outEvents == old(outEvents) + Sent(Key(k, c, down, alt))
      ensures PointerState() == old(PointerState()) && width == old(width) && height == old(height)
      ensures inEvents == old(inEvents) && looping == old(looping) && loopTime == old(loopTime)
      ensures loopTimeAcc == old(loopTimeAcc) && deltaTime == old(deltaTime) && totalTime == old(totalTime)
    {
      keyDown[k] := down;
      if down {
        keyCode := k;
        if keyCodeOnceLast != keyCode {
          keyCodeOnceLast := keyCode;
          keyCodeOnce := keyCode;
        }
      } else {
        keyCodeOnceLast := 0;
      }
      if c == 'r' && alt {
        outEvents := outEvents + [RecompilePlugin];
      }
    }

    /** `__nextFrame`: handle and drop every incoming event, then, when looping, take the
        viewport size and the sketch's clock and report whether the accumulated frame time
        reached the frame limit, restarting the accumulation when it did. */
    method NextFrame(viewportWidth: int, viewportHeight: int, sketchDelta: real, sketchTotal: real) returns (run: bool)
      requires Valid() && AllIndexable(inEvents)
      modifies this, keyDown
      ensures Valid() && inEvents == []
      ensures KeyState() == KeysAfter(old(KeyState()), old(inEvents))
      ensures PointerState() == PointerAfter(old(PointerState()), old(inEvents))
      ensures outEvents == old(outEvents) + SentAll(old(inEvents))
      ensures (width, height) == if old(looping) then (viewportWidth as real, viewportHeight as real)
                                 else SizeAfter((old(width), old(height)), old(inEvents))
      ensures run <==> old(looping) && old(loopTimeAcc) + sketchDelta >= old(loopTime)
      ensures loopTimeAcc == if !old(looping) then old(loopTimeAcc) else if run then 0.0 else old(loopTimeAcc) + sketchDelta
      ensures old(looping) ==> deltaTime == sketchDelta && totalTime == sketchTotal
      ensures !old(looping) ==> deltaTime == old(deltaTime) && totalTime == old(totalTime)
      ensures looping == old(looping) && loopTime == old(loopTime)
    {
      DrainEvents();
      run := false;
      if looping {
        width, height := viewportWidth as real, viewportHeight as real;
        deltaTime, totalTime := sketchDelta, sketchTotal;
        loopTimeAcc := loopTimeAcc + deltaTime;
        if loopTimeAcc >= loopTime {
          loopTimeAcc := 0.0;
          run := true;
        }
      }
    }

    /** The event loop of `__nextFrame` and the clearing of the in-queue after it. */
    method DrainEvents()
      requires Valid() && AllIndexable(inEvents)
      modifies this, keyDown
      ensures Valid() && inEvents == []
      ensures KeyState() == KeysAfter(old(KeyState()), old(inEvents))
      ensures PointerState() == PointerAfter(old(PointerState()), old(inEvents))
      ensures outEvents == old(outEvents) + SentAll(old(inEvents))
      ensures (width, height) == SizeAfter((old(width), old(height)), old(inEvents))
      ensures looping == old(looping) && loopTime == old(loopTime) && loopTimeAcc == old(loopTimeAcc)
      ensures deltaTime == old(deltaTime) && totalTime == old(totalTime)
    {
      var events := inEvents;
      var ks0, m0, size0, out0 := KeyState(), PointerState(), (width, height), outEvents;
      var i := 0;
      while i < |events|
        invariant 0 <= i <= |events| && Valid()
        invariant AllIndexable(events[..i])
        invariant KeyState() == KeysAfter(ks0, events[..i]) && PointerState() == PointerAfter(m0, events[..i])
        invariant (width, height) == SizeAfter(size0, events[..i]) && outEvents == out0 + SentAll(events[..i])
        invariant inEvents == events && looping == old(looping) && loopTime == old(loopTime)
        invariant loopTimeAcc == old(loopTimeAcc) && deltaTime == old(deltaTime) && totalTime == old(totalTime)
        decreases |events| - i
      {
        IndexablePrefix(events, i + 1);
        assert events[..i + 1][..i] == events[..i];
        HandleEvent(events[i]);
        i := i + 1;
      }
      assert events[..i] == events;
      inEvents := [];
    }

    /** `__endFrame`. */
    method EndFrameNow()
      modifies this
      ensures KeyState() == EndKeys(old(KeyState())) && PointerState() == EndPointer(old(PointerState()))
      ensures inEvents == old(inEvents) && outEvents == old(outEvents) && looping == old(looping) && loopTimeAcc == old(loopTimeAcc)
      ensures width == old(width) && height == old(height) && deltaTime == old(deltaTime) && totalTime == old(totalTime)
      ensures loopTime == old(loopTime)
    {
      pmouseX, pmouseY := mouseX, mouseY;
      keyCode, keyCodeOnce := 0, 0;
      mousePressedOnce := false;
    }
  }
}
