/** The before/after comparison slider (`Compare` component): a reveal percentage kept
    in [0,100], hover and drag interaction, and an autoplay triangle wave driven by
    animation frames. Time (`performance.now()`) and pointer geometry are parameters;
    the host's callbacks are recorded as a log of notifications. */
module Compare {
  import opened JsNumber
  import opened Wrappers

  datatype SlideMode = Hover | Drag

  /** One invocation of a host callback (`onUpdatePercentage`, `onDragStart`, ...). */
  datatype Notification = PercentUpdated(percent: real) | DragStarted | DragEnded | HoverEntered | HoverLeft

  /** The horizontal extent of the container's bounding rectangle. */
  datatype Rect = Rect(left: real, width: real)

  /** `clamp`: NaN becomes 0, everything else is limited to [0,100]. */
  function Clamp(n: Num): (r: real)
    ensures 0.0 <= r <= 100.0
    ensures n == NaN ==> r == 0.0
    ensures n.Fin? && 0.0 <= n.v <= 100.0 ==> r == n.v
  {
    match n
    case NaN => 0.0
    case NegInf => 0.0
    case PosInf => 100.0
    case Fin(v) => Max(0.0, Min(100.0, v))
  }

  function Abs(x: real): real { if x < 0.0 then -x else x }

  /** A finite value is clamped to the nearest point of [0,100]. */
  lemma ClampNearest(v: real, q: real)
    requires 0.0 <= q <= 100.0
    ensures Abs(Clamp(Fin(v)) - v) <= Abs(q - v)
  {
  }

  /** The percentage for a pointer at `clientX`: `clamp((clientX - left) / width * 100)`;
      a zero-width container divides by zero, giving an infinity or NaN. */
  function PercentAt(clientX: real, rect: Rect): (r: real)
    ensures 0.0 <= r <= 100.0
    ensures rect.width != 0.0 ==> r == Clamp(Fin((clientX - rect.left) / rect.width * 100.0))
    ensures rect.width == 0.0 ==> r == if clientX > rect.left then 100.0 else 0.0
  {
    Clamp(Times(Divide(clientX - rect.left, rect.width), 100.0))
  }

  lemma MulLe(a: real, b: real, d: real)
    requires a <= b && d > 0.0
    ensures a * d <= b * d
  {
    assert b * d - a * d == (b - a) * d;
  }

  lemma MulLt(a: real, b: real, d: real)
    requires a < b && d > 0.0
    ensures a * d < b * d
  {
    assert b * d - a * d == (b - a) * d;
  }

  /** Division by a positive number is monotone and keeps 0 and 1 in place. */
  lemma DivMonotone(x1: real, x2: real, w: real)
    requires w > 0.0 && x1 <= x2
    ensures x1 / w <= x2 / w
  {
    var q1, q2 := x1 / w, x2 / w;
    assert q1 * w == x1 && q2 * w == x2;
    if q1 > q2 {
      MulLt(q2, q1, w);
    }
  }

  lemma MulCancel(x: real, y: real, p: real)
    requires p > 0.0 && x * p == y * p
    ensures x == y
  {
    if x < y {
      MulLt(x, y, p);
    }
    if y < x {
      MulLt(y, x, p);
    }
  }

  /** `(e + c·p) / p == e / p + c`. */
  lemma DivShift(e: real, c: real, p: real)
    requires p > 0.0
    ensures (e + c * p) / p == e / p + c
  {
    var a := (e + c * p) / p;
    var b := e / p;
    assert a * p == e + c * p;
    assert b * p == e;
    assert (b + c) * p == b * p + c * p;
    MulCancel(a, b + c, p);
  }

  /** `(-e) / p == -(e / p)`. */
  lemma DivNegate(e: real, p: real)
    requires p > 0.0
    ensures (-e) / p == -(e / p)
  {
    var a := (-e) / p;
    var b := e / p;
    assert a * p == -e;
    assert b * p == e;
    assert (-b) * p == -(b * p);
    MulCancel(a, -b, p);
  }

  lemma DivByItself(w: real)
    requires w > 0.0
    ensures w / w == 1.0 && 0.0 / w == 0.0
  {
  }

  /** A pointer left of the container gives 0 and one right of it gives 100, so a drag
      that leaves the container horizontally pins the divider to that edge. */
  lemma PercentAtOutside(clientX: real, rect: Rect)
    requires rect.width > 0.0
    ensures clientX <= rect.left ==> PercentAt(clientX, rect) == 0.0
    ensures clientX >= rect.left + rect.width ==> PercentAt(clientX, rect) == 100.0
  {
    var x := clientX - rect.left;
    DivByItself(rect.width);
    if clientX >= rect.left + rect.width {
      DivMonotone(rect.width, x, rect.width);
    }
    if clientX <= rect.left {
      DivMonotone(x, 0.0, rect.width);
    }
  }

  /** Moving the pointer right never moves the divider left. */
  lemma PercentAtMonotone(x1: real, x2: real, rect: Rect)
    requires rect.width > 0.0 && x1 <= x2
    ensures PercentAt(x1, rect) <= PercentAt(x2, rect)
  {
    DivMonotone(x1 - rect.left, x2 - rect.left, rect.width);
  }

  /** When `t` is the floor of `n / d`, `n - t·d` lies in [0, d). */
  lemma FloorRemainder(n: real, d: real, t: int)
    requires d > 0.0 && t as real <= n / d < t as real + 1.0
    ensures 0.0 <= n - t as real * d < d
  {
    var q := n / d;
    var tr := t as real;
    assert q * d == n;
    MulLe(tr, q, d);
    assert tr * d <= q * d;
    MulLt(q, tr + 1.0, d);
    assert q * d < (tr + 1.0) * d;
    assert (tr + 1.0) * d == tr * d + d;
    assert n < tr * d + d;
  }

  /** The quotient of `n / d` truncated towards zero. */
  function TruncQuotient(n: real, d: real): (t: int)
    requires d > 0.0
    ensures n >= 0.0 ==> 0.0 <= n - t as real * d < d
    ensures n < 0.0 ==> -d < n - t as real * d <= 0.0
  {
    if n >= 0.0 then
      FloorRemainder(n, d, (n / d).Floor);
      (n / d).Floor
    else
      FloorRemainder(-n, d, (-n / d).Floor);
      -((-n / d).Floor)
  }

  /** JavaScript's `%` on numbers, for a positive divisor: the quotient is truncated
      towards zero, so the remainder has the sign of the dividend and differs from it
      by a whole multiple of the divisor. */
  function JsRemainder(n: real, d: real): (r: real)
    requires d > 0.0
    ensures n >= 0.0 ==> 0.0 <= r < d
    ensures n < 0.0 ==> -d < r <= 0.0
    ensures n == TruncQuotient(n, d) as real * d + r
  {
    n - TruncQuotient(n, d) as real * d
  }

  /** For a non-negative dividend the remainder is the unique `r` in [0, d) with
      `n = k·d + r` for an integer `k`. */
  lemma RemainderUnique(n: real, d: real, k: int, r: real)
    requires d > 0.0 && n >= 0.0 && 0.0 <= r < d && n == k as real * d + r
    ensures JsRemainder(n, d) == r
  {
    SameQuotient(n, d, k, r, TruncQuotient(n, d), JsRemainder(n, d));
  }

  /** Two divisions of `n` by `d` with remainders in [0, d) agree. */
  lemma SameQuotient(n: real, d: real, k: int, r: real, t: int, r': real)
    requires d > 0.0 && 0.0 <= r < d && 0.0 <= r' < d
    requires n == k as real * d + r && n == t as real * d + r'
    ensures k == t && r == r'
  {
    var m := k - t;
    var md := m as real * d;
    assert md == k as real * d - t as real * d;
    WholeMultipleBelow(m, d, md);
  }

  /** The only whole multiple of `d` strictly between `-d` and `d` is 0. */
  lemma WholeMultipleBelow(m: int, d: real, md: real)
    requires d > 0.0 && md == m as real * d && -d < md < d
    ensures m == 0
  {
    if m >= 1 {
      MulLe(1.0, m as real, d);
    }
    if m <= -1 {
      MulLe(m as real, -1.0, d);
    }
  }

  /** The autoplay period, `Math.max(100, autoplayDuration)`. */
  function Period(duration: real): (p: real)
    ensures p >= 100.0 && p >= duration
    ensures duration >= 100.0 ==> p == duration
  {
    Max(100.0, duration)
  }

  /** The autoplay percentage `elapsed` milliseconds after autoplay (re)started. */
  function AutoplayPercent(elapsed: real, duration: real): (r: real)
    ensures 0.0 <= r <= 100.0
  {
    var period := Period(duration);
    var t := JsRemainder(elapsed, period * 2.0) / period;
    var triangle := if t <= 1.0 then t else 2.0 - t;
    Clamp(Fin(triangle * 100.0))
  }

  /** The phase `e` of a cycle of length `2p`, as a fraction of `p`. */
  lemma PhaseFraction(e: real, p: real)
    requires p > 0.0 && 0.0 <= e < p * 2.0
    ensures 0.0 <= e / p < 2.0
    ensures e <= p <==> e / p <= 1.0
    ensures (p * 2.0 - e) / p == 2.0 - e / p
  {
    DivShift(e - p * 2.0, 2.0, p);
    assert e / p == (e - p * 2.0) / p + 2.0;
    DivShift(e - p, 1.0, p);
    assert e / p == (e - p) / p + 1.0;
    DivShift(-e, 2.0, p);
    DivNegate(e, p);
  }

  /** The triangle wave over one cycle: the percentage rises linearly from 0 to 100
      during the first period and falls back linearly during the second. */
  lemma AutoplayWithinCycle(elapsed: real, duration: real)
    requires 0.0 <= elapsed < Period(duration) * 2.0
    ensures var p := Period(duration);
            AutoplayPercent(elapsed, duration)
              == if elapsed <= p then elapsed / p * 100.0 else (p * 2.0 - elapsed) / p * 100.0
  {
    var p := Period(duration);
    RemainderUnique(elapsed, p * 2.0, 0, elapsed);
    PhaseFraction(elapsed, p);
  }

  /** For non-negative elapsed times the wave repeats every two periods. */
  lemma AutoplayPeriodic(elapsed: real, duration: real)
    requires elapsed >= 0.0
    ensures AutoplayPercent(elapsed + Period(duration) * 2.0, duration) == AutoplayPercent(elapsed, duration)
  {
    var d := Period(duration) * 2.0;
    var r := JsRemainder(elapsed, d);
    var k := TruncQuotient(elapsed, d);
    assert (k + 1) as real * d == k as real * d + d;
    RemainderUnique(elapsed + d, d, k + 1, r);
  }

  /** Before the start time (a negative elapsed time) the wave sits at 0: the
      truncating remainder is not positive there. */
  lemma AutoplayBeforeStart(elapsed: real, duration: real)
    requires elapsed <= 0.0
    ensures AutoplayPercent(elapsed, duration) == 0.0
  {
    var p := Period(duration);
    var phase := JsRemainder(elapsed, p * 2.0);
    var t := phase / p;
    assert t * p == phase;
    if t > 0.0 {
      MulLt(0.0, t, p);
    }
  }

  /** With a 4000 ms period the wave passes 25 at 1000 ms, peaks at 4000 ms and is
      back at 0 after 8000 ms. */
  lemma AutoplaySamples()
    ensures AutoplayPercent(0.0, 4000.0) == 0.0
    ensures AutoplayPercent(1000.0, 4000.0) == 25.0
    ensures AutoplayPercent(4000.0, 4000.0) == 100.0
    ensures AutoplayPercent(6000.0, 4000.0) == 50.0
    ensures AutoplayPercent(8000.0, 4000.0) == 0.0
  {
    AutoplayWithinCycle(0.0, 4000.0);
    AutoplayWithinCycle(1000.0, 4000.0);
    AutoplayWithinCycle(4000.0, 4000.0);
    AutoplayWithinCycle(6000.0, 4000.0);
    AutoplayPeriodic(0.0, 4000.0);
  }

  /** The slider's state: the percent state, the dragging / mouse-over / interacting
      refs, whether an animation frame is requested (`rafRef.current` set), the
      autoplay start time, whether the document-level listeners are attached, and the
      callbacks fired so far. */
  class CompareSlider {
    const mode: SlideMode
    const autoplay: bool
    const autoplayDuration: real
    var initialPercentage: Num
    var percent: real
    var dragging: bool
    var mouseOver: bool
    var interacting: bool
    var frameRequested: bool
    var startTime: real
    var listening: bool
    var emitted: seq<Notification>

    /** The percent stays in [0,100]; only drag mode drags or listens on the document;
        a drag always has its listeners attached; and autoplay frames are requested
        only while neither hovering nor dragging. */
    ghost predicate Valid()
      reads this
    {
      && 0.0 <= percent <= 100.0
      && (dragging ==> mode == Drag && listening)
      && (listening ==> mode == Drag)
      && (frameRequested ==> autoplay && !mouseOver && !dragging)
    }

    /** Mounting: the percent starts at the clamped initial value and, with autoplay
        on, the first frame is requested. */
    constructor (mode: SlideMode, autoplay: bool, autoplayDuration: real, initialPercentage: Num, now: real)
      ensures Valid()
      ensures this.mode == mode && this.autoplay == autoplay && this.autoplayDuration == autoplayDuration
      ensures this.initialPercentage == initialPercentage && percent == Clamp(initialPercentage)
      ensures !dragging && !mouseOver && !interacting && !listening && emitted == []
      ensures frameRequested == autoplay && startTime == (if autoplay then now else 0.0)
    {
      this.mode := mode;
      this.autoplay := autoplay;
      this.autoplayDuration := autoplayDuration;
      this.initialPercentage := initialPercentage;
      percent := Clamp(initialPercentage);
      dragging, mouseOver, interacting, listening := false, false, false, false;
      emitted := [];
      frameRequested := autoplay;
      startTime := if autoplay then now else 0.0;
    }

    /** `stopAutoplay`: cancels the requested frame, if any. */
    method StopAutoplay()
      modifies this`frameRequested
      ensures !frameRequested
    {
      if frameRequested {
        frameRequested := false;
      }
    }

    /** `startAutoplay`: with autoplay on, restarts the wave from a fresh phase origin
        and requests a frame; with it off, does nothing. */
    method StartAutoplay(now: real)
      requires !mouseOver && !dragging
      modifies this`frameRequested, this`startTime
      ensures autoplay ==> frameRequested && startTime == now
      ensures !autoplay ==> frameRequested == old(frameRequested) && startTime == old(startTime)
    {
      if !autoplay {
        return;
      }
      StopAutoplay();
      startTime := now;
      frameRequested := true;
    }

    /** `animate`, the frame callback: with autoplay off, the pointer over the widget
        or a drag active it changes nothing and requests no frame; otherwise it sets
        and emits the wave's value and requests the next frame. */
    method Animate(now: real)
      requires Valid()
      modifies this`percent, this`emitted, this`frameRequested
      ensures Valid()
      ensures !autoplay || mouseOver || dragging ==>
                percent == old(percent) && emitted == old(emitted) && frameRequested == old(frameRequested)
      ensures autoplay && !mouseOver && !dragging ==>
                && percent == AutoplayPercent(now - startTime, autoplayDuration)
                && emitted == old(emitted) + [PercentUpdated(percent)]
                && frameRequested
    {
      if !autoplay || mouseOver || dragging {
        return;
      }
      var elapsed := now - startTime;
      var newP := AutoplayPercent(elapsed, autoplayDuration);
      percent := newP;
      emitted := emitted + [PercentUpdated(newP)];
      frameRequested := true;
    }

    /** `updateFromClientX`: without a mounted container nothing happens; otherwise the
        percent follows the pointer and is emitted. Also the document `mousemove`
        handler while a drag's listeners are attached. */
    method UpdateFromClientX(clientX: real, rect: Option<Rect>)
      requires Valid()
      modifies this`percent, this`emitted
      ensures Valid()
      ensures rect.None? ==> percent == old(percent) && emitted == old(emitted)
      ensures rect.Some? ==>
                percent == PercentAt(clientX, rect.value) && emitted == old(emitted) + [PercentUpdated(percent)]
    {
      if rect.None? {
        return;
      }
      var p := PercentAt(clientX, rect.value);
      percent := p;
      emitted := emitted + [PercentUpdated(p)];
    }

    /** `handleMouseEnter`: marks the pointer as over the widget, fires `onHoverEnter`
        and suspends autoplay. */
    method HandleMouseEnter()
      requires Valid()
      modifies this`mouseOver, this`emitted, this`frameRequested
      ensures Valid()
      ensures mouseOver && emitted == old(emitted) + [HoverEntered] && !frameRequested
      ensures old(listening == dragging) ==> listening == dragging
    {
      mouseOver := true;
      emitted := emitted + [HoverEntered];
      if autoplay {
        StopAutoplay();
      }
    }

    /** `handleMouseLeave`: in hover mode the percent snaps back to the clamped initial
        value, which is emitted; in drag mode the dragging flag is cleared, but
        `onDragEnd` is not fired and the document listeners stay attached; autoplay
        restarts. */
    method HandleMouseLeave(now: real)
      requires Valid()
      modifies this`mouseOver, this`interacting, this`emitted, this`percent, this`dragging,
               this`frameRequested, this`startTime
      ensures Valid()
      ensures !mouseOver && !interacting && !dragging
      ensures mode == Hover ==>
                percent == Clamp(initialPercentage) && emitted == old(emitted) + [HoverLeft, PercentUpdated(percent)]
      ensures mode == Drag ==> percent == old(percent) && emitted == old(emitted) + [HoverLeft]
      ensures autoplay ==> frameRequested && startTime == now
      ensures !autoplay ==> !frameRequested && startTime == old(startTime)
    {
      mouseOver := false;
      interacting := false;
      emitted := emitted + [HoverLeft];
      if mode == Hover {
        percent := Clamp(initialPercentage);
        emitted := emitted + [PercentUpdated(Clamp(initialPercentage))];
      }
      if mode == Drag {
        dragging := false;
      }
      if autoplay {
        StartAutoplay(now);
      }
    }

    /** `handleMouseMove`: in hover mode, or in drag mode while dragging, suspends
        autoplay and lets the percent follow the pointer; otherwise does nothing. */
    method HandleMouseMove(clientX: real, rect: Option<Rect>)
      requires Valid()
      modifies this`interacting, this`frameRequested, this`percent, this`emitted
      ensures Valid()
      ensures old(listening == dragging) ==> listening == dragging
      ensures mode == Hover || dragging ==>
                && interacting && (autoplay ==> !frameRequested)
                && (rect.Some? ==>
                      percent == PercentAt(clientX, rect.value) && emitted == old(emitted) + [PercentUpdated(percent)])
                && (rect.None? ==> percent == old(percent) && emitted == old(emitted))
      ensures mode == Drag && !dragging ==>
                && interacting == old(interacting) && frameRequested == old(frameRequested)
                && percent == old(percent) && emitted == old(emitted)
    {
      if mode == Hover || (mode == Drag && dragging) {
        interacting := true;
        if autoplay {
          StopAutoplay();
        }
        UpdateFromClientX(clientX, rect);
      }
    }

    /** `endDrag` (also the document `mouseup`/`touchend` handler and the widget's
        `touchend`): outside drag mode, or when not dragging, it does nothing;
        otherwise it clears dragging, fires `onDragEnd`, detaches the document
        listeners and restarts autoplay unless the pointer is over the widget. */
    method EndDrag(now: real)
      requires Valid()
      modifies this`dragging, this`interacting, this`emitted, this`listening,
               this`frameRequested, this`startTime
      ensures Valid()
      ensures old(listening == dragging) ==> listening == dragging
      ensures mode != Drag || !old(dragging) ==>
                && dragging == old(dragging) && interacting == old(interacting) && emitted == old(emitted)
                && listening == old(listening) && frameRequested == old(frameRequested)
                && startTime == old(startTime)
      ensures mode == Drag && old(dragging) ==>
                && !dragging && !interacting && !listening
                && emitted == old(emitted) + [DragEnded]
                && (autoplay && !mouseOver ==> frameRequested && startTime == now)
                && (!(autoplay && !mouseOver) ==> frameRequested == old(frameRequested) && startTime == old(startTime))
    {
      if mode != Drag {
        return;
      }
      if !dragging {
        return;
      }
      dragging := false;
      interacting := false;
      emitted := emitted + [DragEnded];
      if autoplay && !mouseOver {
        StartAutoplay(now);
      }
      listening := false;
    }

    /** `startDrag` (mouse down or touch start on the widget): outside drag mode it does
        nothing; in drag mode it sets dragging, fires `onDragStart`, suspends autoplay
        and attaches the document listeners. */
    method StartDrag()
      requires Valid()
      modifies this`dragging, this`interacting, this`emitted, this`frameRequested, this`listening
      ensures Valid()
      ensures old(listening == dragging) ==> listening == dragging
      ensures mode != Drag ==>
                && dragging == old(dragging) && interacting == old(interacting) && emitted == old(emitted)
                && frameRequested == old(frameRequested) && listening == old(listening)
      ensures mode == Drag ==>
                dragging && interacting && listening && !frameRequested && emitted == old(emitted) + [DragStarted]
    {
      if mode != Drag {
        return;
      }
      dragging := true;
      interacting := true;
      emitted := emitted + [DragStarted];
      StopAutoplay();
      listening := true;
    }

    /** The widget's `touchmove` handler: in drag mode the percent follows the first
        touch point, whether or not a drag is active; the document `touchmove`
        handler is the same without the mode test. */
    method HandleTouchMove(touchX: Option<real>, rect: Option<Rect>)
      requires Valid()
      modifies this`percent, this`emitted
      ensures Valid()
      ensures mode == Drag && touchX.Some? && rect.Some? ==>
                percent == PercentAt(touchX.value, rect.value) && emitted == old(emitted) + [PercentUpdated(percent)]
      ensures mode != Drag || touchX.None? || rect.None? ==> percent == old(percent) && emitted == old(emitted)
    {
      if mode == Drag && touchX.Some? {
        UpdateFromClientX(touchX.value, rect);
      }
    }

    /** A new `initialSliderPercentage` prop resets the percent, whatever the state,
        without notifying the host. */
    method SetInitialPercentage(n: Num)
      requires Valid()
      modifies this`initialPercentage, this`percent
      ensures Valid()
      ensures initialPercentage == n && percent == Clamp(n)
    {
      initialPercentage := n;
      percent := Clamp(n);
    }

    /** `handleMouseLeave` as evidently intended: in drag mode, leaving the widget
        ends an active drag through `EndDrag`, so `onDragEnd` fires and the document
        listeners are detached. */
    method HandleMouseLeaveEndingDrag(now: real)
      requires Valid()
      modifies this`mouseOver, this`interacting, this`emitted, this`percent, this`dragging,
               this`frameRequested, this`startTime, this`listening
      ensures Valid()
      ensures !mouseOver && !interacting && !dragging
      ensures old(listening == dragging) ==> !listening
      ensures mode == Hover ==>
                percent == Clamp(initialPercentage) && emitted == old(emitted) + [HoverLeft, PercentUpdated(percent)]
      ensures mode == Drag ==>
                percent == old(percent) && emitted == old(emitted) + [HoverLeft] + (if old(dragging) then [DragEnded] else [])
      ensures autoplay ==> frameRequested && startTime == now
    {
      mouseOver := false;
      interacting := false;
      emitted := emitted + [HoverLeft];
      if mode == Hover {
        percent := Clamp(initialPercentage);
        emitted := emitted + [PercentUpdated(Clamp(initialPercentage))];
      }
      if mode == Drag {
        EndDrag(now);
      }
      if autoplay {
        StartAutoplay(now);
      }
    }
  }

  /** Leaving the widget in the middle of a drag, as written: after the mouse is
      released the document listeners are still attached although no drag is active,
      `onDragEnd` never fired, and a later document `mousemove` still moves the
      divider (here to 100 for a pointer right of a 200-pixel container). */
  method LeaveDuringDragAsWritten() returns (listening: bool, dragging: bool, percent: real, dragEnded: bool)
    ensures listening && !dragging && percent == 100.0 && !dragEnded
  {
    var s := new CompareSlider(Drag, false, 5000.0, Fin(50.0), 0.0);
    s.StartDrag();
    s.HandleMouseLeave(0.0);
    s.EndDrag(0.0);
    s.UpdateFromClientX(300.0, Some(Rect(0.0, 200.0)));
    listening, dragging, percent, dragEnded := s.listening, s.dragging, s.percent, DragEnded in s.emitted;
  }

  /** The same gesture with the corrected leave handler: the drag ends, `onDragEnd`
      fires and the listeners are detached. */
  method LeaveDuringDragCorrected() returns (listening: bool, dragging: bool, dragEnded: bool)
    ensures !listening && !dragging && dragEnded
  {
    var s := new CompareSlider(Drag, false, 5000.0, Fin(50.0), 0.0);
    s.StartDrag();
    s.HandleMouseLeaveEndingDrag(0.0);
    s.EndDrag(0.0);
    listening, dragging, dragEnded := s.listening, s.dragging, DragEnded in s.emitted;
  }
}
