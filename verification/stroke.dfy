/** The painting operator's event loop: a press starts a stroke, moves commit
    a new brush colour and paint dots once the pointer has travelled the brush
    spacing from the last committed position, fast moves are back-filled with
    evenly spaced dots, and ESC restores the neutral colour and ends the
    operator. */
module Stroke {
  import opened Wrappers
  import opened Vectors
  import opened Interpolation
  import opened DirectionEncoder
  import opened SpaceDispatch

  datatype EventType = LeftMouse | MouseMove | Esc | OtherType
  datatype EventValue = Press | Release | OtherValue

  /** A window event with the pointer's window position. */
  datatype Event = Event(kind: EventType, value: EventValue, pos: Pixel)

  /** The operator's per-instance state: the last committed position, from
      which travel is measured, the position the last direction was taken
      from, and whether the left button is down. */
  datatype StrokeState = StrokeState(furthest: Pixel, prev: Pixel, pressing: bool)

  /** The state of a freshly started operator. */
  const Initial := StrokeState(Pixel(0, 0), Pixel(0, 0), false)

  /** What a handled event returns to the window manager; `Raised` stands
      for an exception escaping the handler, which ends the operator. */
  datatype Status = RunningModal | Finished | PassThrough | Raised

  /** A painted dot: its window position and the surface location handed to
      the paint call. */
  datatype Dot = Dot(pos: Vec2, location: Option<Vec3>)

  /** The effect of one event: the new state, the brush colour set (if any),
      the dots painted in order, and the returned status. */
  datatype Reaction = Reaction(state: StrokeState, brush: Option<Color>, dots: seq<Dot>, status: Status)

  /** The two concrete operators: the image editor's, which encodes screen
      directions, and the 3-D viewport's, which samples the surface. */
  datatype Operator = ImageEditor | Viewport3D(view: Viewport, settings: SpaceSettings)

  /** The colour ESC leaves on the brush. */
  const Neutral := Color(0.5, 0.5, 0.5)

  predicate IsPress(ev: Event) {
    ev.kind == LeftMouse && ev.value == Press
  }

  predicate IsRelease(ev: Event) {
    ev.kind == LeftMouse && ev.value == Release
  }

  /** Pointer motion, and any other left-button event, goes to the move
      handler. */
  predicate IsMove(ev: Event) {
    ev.kind == MouseMove || (ev.kind == LeftMouse && ev.value == OtherValue)
  }

  predicate Stopped(status: Status) {
    status == Finished || status == Raised
  }

  /** Euclidean distance between two window positions. */
  function Distance(a: Pixel, b: Pixel, norm: Vec3 -> real): real {
    norm(Lift(ToVec2(PixelSub(a, b))))
  }

  /** The operator's direction colour and surface location for a move from
      `prev` to `pos`. */
  function DirectionSample(op: Operator, pos: Pixel, prev: Pixel, norm: Vec3 -> real): (r: Sample)
    requires IsEuclidean(norm)
    ensures op.ImageEditor? ==>
      && r.location.None? && r.color.Some?
      && r.color.value == EncodeScreen(ToVec2(pos), ToVec2(prev), norm)
    ensures op.Viewport3D? ==> r == ViewportSample(op.view, op.settings, pos, prev, norm)
  {
    match op
    case ImageEditor => Sample(Some(EncodeScreen(ToVec2(pos), ToVec2(prev), norm)), None)
    case Viewport3D(view, settings) => ViewportSample(view, settings, pos, prev, norm)
  }

  /** The interpolation fraction of the `k`-th of `n` substeps. */
  function Mix(n: int, k: int): real
    requires n != 0
  {
    Mul(Quot(1.0, n as real), k as real)
  }

  /** Substeps `count`, `count - 1`, ..., 1 of `n`, each a dot `k / n` of the
      way from `prev` to `pos`; nothing once the counter is not positive. */
  function Substeps(prev: Pixel, pos: Pixel, n: int, count: int, location: Option<Vec3>): (r: seq<Dot>)
    requires n != 0
    ensures |r| == if count > 0 then count else 0
    ensures forall i :: 0 <= i < |r| ==>
      r[i] == Dot(LerpPoint(Mix(n, count - i), prev, pos), location)
    decreases count
  {
    if count <= 0 then []
    else [Dot(LerpPoint(Mix(n, count), prev, pos), location)] + Substeps(prev, pos, n, count - 1, location)
  }

  /** The number of substeps: the travelled distance in whole spacings. */
  function SubstepCount(d: real, spacing: real): int
    requires spacing > 0.0
  {
    Quot(d, spacing).Floor
  }

  /** The dots of one committed move: with more than two spacings of travel,
      one dot per whole spacing, back-filled from the previous position;
      otherwise a single dot at the pointer. */
  function StrokeDots(prev: Pixel, pos: Pixel, d: real, spacing: real, location: Option<Vec3>): (r: seq<Dot>)
    requires spacing > 0.0
    ensures d > 2.0 * spacing ==> |r| == SubstepCount(d, spacing) >= 2
    ensures d <= 2.0 * spacing ==> r == [Dot(ToVec2(pos), location)]
    ensures forall i :: 0 <= i < |r| ==> r[i].location == location
  {
    if d > 2.0 * spacing then
      SubstepsAtLeastTwo(d, spacing);
      Substeps(prev, pos, SubstepCount(d, spacing), SubstepCount(d, spacing), location)
    else
      [Dot(ToVec2(pos), location)]
  }

  /** One event through the operator's handler. */
  function Step(op: Operator, spacing: real, state: StrokeState, ev: Event, norm: Vec3 -> real): (r: Reaction)
    requires spacing >= 0.0
    requires IsEuclidean(norm)
    ensures r.status == Finished <==> ev.kind == Esc
    ensures r.status == PassThrough <==> ev.kind == OtherType
    ensures r.status == Raised <==> spacing == 0.0 && state.pressing && IsMove(ev)
    ensures r.status == Raised ==>
      && r.state == StrokeState(ev.pos, state.prev, true)
      && r.brush == DirectionSample(op, ev.pos, state.prev, norm).color
      && r.dots == []
    ensures IsPress(ev) ==> r == Reaction(StrokeState(ev.pos, state.prev, true), None, [], RunningModal)
    ensures IsRelease(ev) ==> r == Reaction(StrokeState(state.furthest, state.prev, false), None, [], RunningModal)
    ensures ev.kind == Esc ==> r == Reaction(state, Some(Neutral), [], Finished)
    ensures ev.kind == OtherType ==> r == Reaction(state, None, [], PassThrough)
    ensures IsMove(ev) && Distance(state.furthest, ev.pos, norm) < spacing ==>
      r == Reaction(state, None, [], RunningModal)
    ensures IsMove(ev) && Distance(state.furthest, ev.pos, norm) >= spacing ==>
      var sample := DirectionSample(op, ev.pos, state.prev, norm);
      && r.state.furthest == ev.pos
      && r.state.pressing == state.pressing
      && r.brush == sample.color
      && (r.status == RunningModal ==> r.state.prev == ev.pos)
      && (!state.pressing ==> r.dots == [] && r.status == RunningModal)
      && (state.pressing && spacing > 0.0 ==>
            && r.status == RunningModal
            && r.dots == StrokeDots(state.prev, ev.pos, Distance(state.furthest, ev.pos, norm), spacing, sample.location))
    ensures r.dots != [] ==> IsMove(ev) && state.pressing && r.state.prev == ev.pos
    ensures !IsPress(ev) ==> r.state.pressing == (state.pressing && !IsRelease(ev))
  {
    if IsPress(ev) then
      Reaction(state.(furthest := ev.pos, pressing := true), None, [], RunningModal)
    else if IsRelease(ev) then
      Reaction(state.(pressing := false), None, [], RunningModal)
    else if ev.kind == MouseMove || ev.kind == LeftMouse then
      var d := Distance(state.furthest, ev.pos, norm);
      // a length is never negative, so a zero spacing is always reached
      assert d == Length(norm, Lift(ToVec2(PixelSub(state.furthest, ev.pos)))) >= 0.0;
      if d >= spacing then
        var sample := DirectionSample(op, ev.pos, state.prev, norm);
        var moved := state.(furthest := ev.pos);
        if !state.pressing then
          Reaction(moved.(prev := ev.pos), sample.color, [], RunningModal)
        else if spacing == 0.0 then
          // the substep count divides by the spacing
          Reaction(moved, sample.color, [], Raised)
        else
          Reaction(moved.(prev := ev.pos), sample.color, StrokeDots(state.prev, ev.pos, d, spacing, sample.location), RunningModal)
      else
        Reaction(state, None, [], RunningModal)
    else if ev.kind == Esc then
      Reaction(state, Some(Neutral), [], Finished)
    else
      Reaction(state, None, [], PassThrough)
  }

  // ---------------------------------------------------------------------
  // Arithmetic of the substep count

  /** Multiplying by a positive factor keeps the order of reals. */
  lemma ScaleKeepsOrder(a: real, b: real, s: real)
    requires s > 0.0
    ensures a <= b ==> Mul(a, s) <= Mul(b, s)
    ensures a < b ==> Mul(a, s) < Mul(b, s)
  {
    if a < b {
      PositiveProduct(b - a, s);
      assert Mul(b, s) - Mul(a, s) == Mul(b - a, s);
    }
  }

  /** More than two spacings of travel give at least two substeps. */
  lemma SubstepsAtLeastTwo(d: real, spacing: real)
    requires spacing > 0.0 && d > 2.0 * spacing
    ensures SubstepCount(d, spacing) >= 2
  {
    var q := Quot(d, spacing);
    QuotTimes(d, spacing);
    if q < 2.0 {
      ScaleKeepsOrder(q, 2.0, spacing);
    }
  }

  /** More than two spacings of travel give n >= 2 substeps with
      n spacings <= distance < n + 1 spacings. */
  lemma DotCountBounds(d: real, spacing: real)
    requires spacing > 0.0 && d > 2.0 * spacing
    ensures var n := SubstepCount(d, spacing);
      && n >= 2
      && Mul(n as real, spacing) <= d < Mul(n as real + 1.0, spacing)
  {
    var q := Quot(d, spacing);
    var n := q.Floor;
    QuotTimes(d, spacing);
    SubstepsAtLeastTwo(d, spacing);
    ScaleKeepsOrder(n as real, q, spacing);
    ScaleKeepsOrder(q, n as real + 1.0, spacing);
  }

  /** The fraction of substep k of n lies in [0, 1]. */
  lemma MixWithin(n: int, k: int)
    requires 1 <= k <= n
    ensures 0.0 < Mix(n, k) <= 1.0
    ensures Mix(n, n) == 1.0
  {
    var q := Quot(1.0, n as real);
    QuotTimes(1.0, n as real);
    if q <= 0.0 {
      ScaleKeepsOrder(q, 0.0, n as real);
    }
    ScaleKeepsOrder(0.0, k as real, q);
    ScaleKeepsOrder(k as real, n as real, q);
  }

  /** Whether back-filled or not, the first dot of a committed move is at the
      pointer. */
  lemma FirstDotAtPointer(prev: Pixel, pos: Pixel, d: real, spacing: real, location: Option<Vec3>)
    requires spacing > 0.0
    ensures var r := StrokeDots(prev, pos, d, spacing, location);
      |r| >= 1 && r[0].pos == ToVec2(pos)
  {
    if d > 2.0 * spacing {
      var n := SubstepCount(d, spacing);
      SubstepsAtLeastTwo(d, spacing);
      MixWithin(n, n);
    }
  }

  /** Back-filled dots are evenly spaced: consecutive dots are one n-th of
      the move apart, and the last is one n-th of the way from the previous
      position. */
  lemma DotsEvenlySpaced(prev: Pixel, pos: Pixel, n: int, location: Option<Vec3>)
    requires n >= 1
    ensures var r := Substeps(prev, pos, n, n, location);
      var step := Quot(1.0, n as real);
      && r[n - 1].pos == LerpPoint(step, prev, pos)
      && forall i :: 0 <= i < n - 1 ==>
           && r[i].pos.x - r[i + 1].pos.x == Mul((pos.x - prev.x) as real, step)
           && r[i].pos.y - r[i + 1].pos.y == Mul((pos.y - prev.y) as real, step)
  {
    var r := Substeps(prev, pos, n, n, location);
    var step := Quot(1.0, n as real);
    assert Mix(n, 1) == step;
    forall i | 0 <= i < n - 1
      ensures r[i].pos.x - r[i + 1].pos.x == Mul((pos.x - prev.x) as real, step)
      ensures r[i].pos.y - r[i + 1].pos.y == Mul((pos.y - prev.y) as real, step)
    {
      assert Mix(n, n - i) - Mix(n, n - (i + 1)) == step;
      LerpDifference(Mix(n, n - i), Mix(n, n - (i + 1)), prev.x as real, pos.x as real);
      LerpDifference(Mix(n, n - i), Mix(n, n - (i + 1)), prev.y as real, pos.y as real);
    }
  }

  /** Every dot of a committed move lies in the box spanned by the previous
      position and the pointer. */
  lemma DotsBetweenEndpoints(prev: Pixel, pos: Pixel, d: real, spacing: real, location: Option<Vec3>)
    requires spacing > 0.0
    ensures var r := StrokeDots(prev, pos, d, spacing, location);
      forall i :: 0 <= i < |r| ==>
        && Min(prev.x as real, pos.x as real) <= r[i].pos.x <= Max(prev.x as real, pos.x as real)
        && Min(prev.y as real, pos.y as real) <= r[i].pos.y <= Max(prev.y as real, pos.y as real)
  {
    var r := StrokeDots(prev, pos, d, spacing, location);
    if d > 2.0 * spacing {
      var n := SubstepCount(d, spacing);
      SubstepsAtLeastTwo(d, spacing);
      forall i | 0 <= i < |r|
        ensures Min(prev.x as real, pos.x as real) <= r[i].pos.x <= Max(prev.x as real, pos.x as real)
        ensures Min(prev.y as real, pos.y as real) <= r[i].pos.y <= Max(prev.y as real, pos.y as real)
      {
        MixWithin(n, n - i);
        LerpBetween(Mix(n, n - i), prev.x as real, pos.x as real);
        LerpBetween(Mix(n, n - i), prev.y as real, pos.y as real);
      }
    }
  }

  /** A move commits exactly when its squared pixel distance from the last
      committed position reaches the squared spacing. */
  lemma CommitThreshold(a: Pixel, b: Pixel, spacing: real, norm: Vec3 -> real)
    requires spacing >= 0.0
    requires IsEuclidean(norm)
    ensures Distance(a, b, norm) >= spacing <==> SqPixelDist(a, b) >= Sq(spacing)
  {
    var v := Lift(ToVec2(PixelSub(a, b)));
    assert Length(norm, v) >= 0.0 && Sq(Length(norm, v)) == SqLen(v);
    SquareMonotone(spacing, Length(norm, v));
  }

  // ---------------------------------------------------------------------
  // Sessions

  /** The operator over a run of events: its state, the brush colour, every
      dot painted so far and the last status. */
  datatype Session = Session(state: StrokeState, brush: Color, dots: seq<Dot>, status: Status)

  /** A freshly invoked operator, with the brush colour it finds: the button
      is up and both positions are the window origin, so the first commit of
      a session takes its direction from (0, 0). */
  function Start(brush: Color): (r: Session)
    ensures r.state.furthest == Pixel(0, 0) && r.state.prev == Pixel(0, 0)
    ensures !r.state.pressing
    ensures r.brush == brush && r.dots == [] && r.status == RunningModal
  {
    Session(Initial, brush, [], RunningModal)
  }

  /** Feeds events to the operator until it finishes or raises; a colour a
      step sets replaces the brush colour, and dots accumulate in order. */
  function Run(op: Operator, spacing: real, s: Session, events: seq<Event>, norm: Vec3 -> real): (r: Session)
    requires spacing >= 0.0
    requires IsEuclidean(norm)
    ensures |s.dots| <= |r.dots| && r.dots[..|s.dots|] == s.dots
    ensures Stopped(s.status) || events == [] ==> r == s
    decreases |events|
  {
    if events == [] || Stopped(s.status) then s
    else
      var re := Step(op, spacing, s.state, events[0], norm);
      var rest := Run(op, spacing, Session(re.state, re.brush.GetOr(s.brush), s.dots + re.dots, re.status), events[1..], norm);
      PrefixOfExtension(s.dots, re.dots, rest.dots);
      rest
  }

  lemma DropFirstOfSplit<T>(a: seq<T>, x: T, b: seq<T>)
    requires a != []
    ensures (a + [x] + b)[0] == a[0]
    ensures (a + [x] + b)[1..] == a[1..] + [x] + b
  {
  }

  lemma PrefixOfExtension<T>(a: seq<T>, b: seq<T>, c: seq<T>)
    requires |a + b| <= |c| && c[..|a + b|] == a + b
    ensures |a| <= |c| && c[..|a|] == a
  {
    assert c[..|a|] == (a + b)[..|a|];
  }

  /** One event of a session that is still running. */
  lemma RunFirst(op: Operator, spacing: real, s: Session, events: seq<Event>, norm: Vec3 -> real)
    requires spacing >= 0.0
    requires IsEuclidean(norm)
    requires events != [] && !Stopped(s.status)
    ensures var re := Step(op, spacing, s.state, events[0], norm);
      Run(op, spacing, s, events, norm)
        == Run(op, spacing, Session(re.state, re.brush.GetOr(s.brush), s.dots + re.dots, re.status), events[1..], norm)
  {
  }

  /** A press only starts a stroke: it records the press position as the
      last committed one and sets the button down, keeping the previous
      position, the brush and the dots. */
  lemma PressStartsStroke(op: Operator, spacing: real, s: Session, press: Event, rest: seq<Event>, norm: Vec3 -> real)
    requires spacing >= 0.0
    requires IsEuclidean(norm)
    requires IsPress(press) && !Stopped(s.status)
    ensures Run(op, spacing, s, [press] + rest, norm)
      == Run(op, spacing, Session(StrokeState(press.pos, s.state.prev, true), s.brush, s.dots, RunningModal), rest, norm)
  {
    var events := [press] + rest;
    assert events[0] == press && events[1..] == rest;
    RunFirst(op, spacing, s, events, norm);
    assert s.dots + [] == s.dots;
  }

  /** A press followed by one event: the event is handled from the pressed
      state. */
  lemma PressThenMove(op: Operator, spacing: real, s: Session, press: Event, ev: Event, norm: Vec3 -> real)
    requires spacing >= 0.0
    requires IsEuclidean(norm)
    requires IsPress(press) && !Stopped(s.status)
    ensures var re := Step(op, spacing, StrokeState(press.pos, s.state.prev, true), ev, norm);
      Run(op, spacing, s, [press, ev], norm) == Session(re.state, re.brush.GetOr(s.brush), s.dots + re.dots, re.status)
  {
    var pressed := Session(StrokeState(press.pos, s.state.prev, true), s.brush, s.dots, RunningModal);
    assert [press, ev] == [press] + [ev];
    PressStartsStroke(op, spacing, s, press, [ev], norm);
    RunFirst(op, spacing, pressed, [ev], norm);
    assert [ev][1..] == [];
  }

  /** The first stroke of a session: after a press at any point, the first
      move that reaches the spacing takes its direction, and its back-fill,
      from the window origin, because that is where a fresh operator's previous position
      lies. */
  lemma FirstStrokeFromOrigin(op: Operator, spacing: real, brush: Color, press: Event, ev: Event, norm: Vec3 -> real)
    requires spacing >= 0.0
    requires IsEuclidean(norm)
    requires IsPress(press) && IsMove(ev)
    requires SqPixelDist(press.pos, ev.pos) >= Sq(spacing)
    ensures var r := Run(op, spacing, Start(brush), [press, ev], norm);
      && r.brush == DirectionSample(op, ev.pos, Pixel(0, 0), norm).color.GetOr(brush)
      && r.state.furthest == ev.pos
      && (spacing > 0.0 ==>
            r.dots == StrokeDots(Pixel(0, 0), ev.pos, Distance(press.pos, ev.pos, norm), spacing,
                                 DirectionSample(op, ev.pos, Pixel(0, 0), norm).location))
  {
    CommitThreshold(press.pos, ev.pos, spacing, norm);
    PressThenMove(op, spacing, Start(brush), press, ev, norm);
  }

  /** Moves that all stay within one spacing of the last committed position
      change nothing, however far they wander in sum. */
  lemma {:induction false} StayingWithinSpacingPaintsNothing(op: Operator, spacing: real, s: Session, events: seq<Event>, norm: Vec3 -> real)
    requires spacing >= 0.0
    requires IsEuclidean(norm)
    requires forall i :: 0 <= i < |events| ==>
      IsMove(events[i]) && SqPixelDist(s.state.furthest, events[i].pos) < Sq(spacing)
    ensures var r := Run(op, spacing, s, events, norm);
      r.state == s.state && r.brush == s.brush && r.dots == s.dots
    decreases |events|
  {
    if events != [] && !Stopped(s.status) {
      CommitThreshold(s.state.furthest, events[0].pos, spacing, norm);
      var next := Session(s.state, s.brush, s.dots, RunningModal);
      assert s.dots + [] == s.dots;
      assert Run(op, spacing, s, events, norm) == Run(op, spacing, next, events[1..], norm);
      StayingWithinSpacingPaintsNothing(op, spacing, next, events[1..], norm);
    }
  }

  /** Without a press nothing is painted, and the button stays up. */
  lemma {:induction false} NoDotsWithoutPress(op: Operator, spacing: real, s: Session, events: seq<Event>, norm: Vec3 -> real)
    requires spacing >= 0.0
    requires IsEuclidean(norm)
    requires !s.state.pressing
    requires forall i :: 0 <= i < |events| ==> !IsPress(events[i])
    ensures var r := Run(op, spacing, s, events, norm);
      r.dots == s.dots && !r.state.pressing
    decreases |events|
  {
    if events != [] && !Stopped(s.status) {
      var re := Step(op, spacing, s.state, events[0], norm);
      var next := Session(re.state, re.brush.GetOr(s.brush), s.dots + re.dots, re.status);
      assert re.dots == [];
      assert s.dots + re.dots == s.dots;
      NoDotsWithoutPress(op, spacing, next, events[1..], norm);
    }
  }

  /** ESC ends the operator: whatever preceded it, the session finishes with
      the neutral brush colour, and later events are not handled. */
  lemma {:induction false} EscapeEndsSession(op: Operator, spacing: real, s: Session, pre: seq<Event>, esc: Event, post: seq<Event>, norm: Vec3 -> real)
    requires spacing > 0.0
    requires IsEuclidean(norm)
    requires !Stopped(s.status)
    requires esc.kind == Esc
    requires forall i :: 0 <= i < |pre| ==> pre[i].kind != Esc
    ensures var m := Run(op, spacing, s, pre, norm);
      Run(op, spacing, s, pre + [esc] + post, norm) == Session(m.state, Neutral, m.dots, Finished)
    decreases |pre|
  {
    var events := pre + [esc] + post;
    if pre == [] {
      assert events == [esc] + post && events[1..] == post;
      var re := Step(op, spacing, s.state, esc, norm);
      assert re == Reaction(s.state, Some(Neutral), [], Finished);
      assert s.dots + [] == s.dots;
      var done := Session(s.state, Neutral, s.dots, Finished);
      assert Run(op, spacing, s, events, norm) == Run(op, spacing, done, post, norm);
    } else {
      var re := Step(op, spacing, s.state, pre[0], norm);
      var next := Session(re.state, re.brush.GetOr(s.brush), s.dots + re.dots, re.status);
      DropFirstOfSplit(pre, esc, post);
      assert Run(op, spacing, s, events, norm) == Run(op, spacing, next, events[1..], norm);
      assert Run(op, spacing, s, pre, norm) == Run(op, spacing, next, pre[1..], norm);
      assert !Stopped(re.status);
      EscapeEndsSession(op, spacing, next, pre[1..], esc, post, norm);
    }
  }

  /** In the 3-D viewport, where every ray misses the surface, no move sets a
      colour: the brush keeps the colour it had. */
  lemma {:induction false} RayMissKeepsBrush(view: Viewport, settings: SpaceSettings, spacing: real, s: Session, events: seq<Event>, norm: Vec3 -> real)
    requires spacing >= 0.0
    requires IsEuclidean(norm)
    requires forall p :: view.rayCast(p).None?
    requires forall i :: 0 <= i < |events| ==> events[i].kind != Esc
    ensures Run(Viewport3D(view, settings), spacing, s, events, norm).brush == s.brush
    decreases |events|
  {
    if events != [] && !Stopped(s.status) {
      var op := Viewport3D(view, settings);
      var ev := events[0];
      var re := Step(op, spacing, s.state, ev, norm);
      assert !BothHit(view, ev.pos, s.state.prev);
      assert DirectionSample(op, ev.pos, s.state.prev, norm).color.None?;
      assert re.brush.None?;
      var next := Session(re.state, s.brush, s.dots + re.dots, re.status);
      RayMissKeepsBrush(view, settings, spacing, next, events[1..], norm);
    }
  }

  // ---------------------------------------------------------------------
  // Scenarios

  /** A move that stays short of the spacing, measured as squared pixels,
      changes nothing. */
  lemma MoveWithinSpacing(op: Operator, spacing: real, state: StrokeState, ev: Event, norm: Vec3 -> real)
    requires spacing >= 0.0
    requires IsEuclidean(norm)
    requires IsMove(ev) && SqPixelDist(state.furthest, ev.pos) < Sq(spacing)
    ensures Step(op, spacing, state, ev, norm) == Reaction(state, None, [], RunningModal)
  {
    CommitThreshold(state.furthest, ev.pos, spacing, norm);
  }

  /** A pressed move that reaches the spacing but not twice the spacing
      paints one dot at the pointer and commits. */
  lemma MoveCommitsOneDot(op: Operator, spacing: real, state: StrokeState, ev: Event, d: real, norm: Vec3 -> real)
    requires spacing > 0.0
    requires IsEuclidean(norm)
    requires IsMove(ev) && state.pressing
    requires spacing <= d <= 2.0 * spacing && Sq(d) == SqPixelDist(state.furthest, ev.pos)
    ensures var sample := DirectionSample(op, ev.pos, state.prev, norm);
      Step(op, spacing, state, ev, norm)
        == Reaction(StrokeState(ev.pos, ev.pos, true), sample.color, [Dot(ToVec2(ev.pos), sample.location)], RunningModal)
  {
    NormIs(norm, Lift(ToVec2(PixelSub(state.furthest, ev.pos))), d);
  }

  /** A pressed move of known length d beyond twice the spacing paints the
      back-filled substeps from the previous position and commits. */
  lemma MoveBackfills(op: Operator, spacing: real, state: StrokeState, ev: Event, d: real, norm: Vec3 -> real)
    requires spacing > 0.0
    requires IsEuclidean(norm)
    requires IsMove(ev) && state.pressing
    requires d > 2.0 * spacing && Sq(d) == SqPixelDist(state.furthest, ev.pos)
    ensures var sample := DirectionSample(op, ev.pos, state.prev, norm);
      Step(op, spacing, state, ev, norm)
        == Reaction(StrokeState(ev.pos, ev.pos, true), sample.color, StrokeDots(state.prev, ev.pos, d, spacing, sample.location), RunningModal)
  {
    NormIs(norm, Lift(ToVec2(PixelSub(state.furthest, ev.pos))), d);
  }

  /** After a press at the origin, with a spacing of 10, a move to (6, 0)
      is ignored. */
  lemma ShortMoveIgnored(norm: Vec3 -> real)
    requires IsEuclidean(norm)
    ensures var pressed := StrokeState(Pixel(0, 0), Pixel(0, 0), true);
      Step(ImageEditor, 10.0, pressed, Event(MouseMove, OtherValue, Pixel(6, 0)), norm)
        == Reaction(pressed, None, [], RunningModal)
  {
    var pressed := StrokeState(Pixel(0, 0), Pixel(0, 0), true);
    var ev := Event(MouseMove, OtherValue, Pixel(6, 0));
    assert ToVec2(PixelSub(pressed.furthest, ev.pos)) == Vec2(-6.0, 0.0);
    assert Sq(-6.0) == 36.0;
    assert Sq(0.0) == 0.0;
    assert Sq(10.0) == 100.0;
    MoveWithinSpacing(ImageEditor, 10.0, pressed, ev, norm);
  }

  /** From the same state a move to (12, 0) commits one dot and a rightwards
      colour. */
  lemma SecondMoveCommits(norm: Vec3 -> real)
    requires IsEuclidean(norm)
    ensures var pressed := StrokeState(Pixel(0, 0), Pixel(0, 0), true);
      Step(ImageEditor, 10.0, pressed, Event(MouseMove, OtherValue, Pixel(12, 0)), norm)
        == Reaction(StrokeState(Pixel(12, 0), Pixel(12, 0), true), Some(Color(1.0, 0.5, 0.0)), [Dot(Vec2(12.0, 0.0), None)], RunningModal)
  {
    var pressed := StrokeState(Pixel(0, 0), Pixel(0, 0), true);
    var ev := Event(MouseMove, OtherValue, Pixel(12, 0));
    assert ToVec2(PixelSub(pressed.furthest, ev.pos)) == Vec2(-12.0, 0.0);
    assert Sq(-12.0) == 144.0 && Sq(12.0) == 144.0 && Sq(0.0) == 0.0;
    MoveCommitsOneDot(ImageEditor, 10.0, pressed, ev, 12.0, norm);
    assert ToVec2(ev.pos) == Vec2(12.0, 0.0) && ToVec2(pressed.prev) == Vec2(0.0, 0.0);
    ScreenHorizontal(12.0, 0.0, norm);
  }

  /** Travel is measured from the last committed position, not from the last
      event: after a press at the origin, two moves of 6 pixels each, both
      below a spacing of 10, together commit a dot at the second. */
  lemma SmallStepsCanAccumulate(brush: Color, norm: Vec3 -> real)
    requires IsEuclidean(norm)
    ensures var r := Run(ImageEditor, 10.0, Start(brush),
                         [Event(LeftMouse, Press, Pixel(0, 0)),
                          Event(MouseMove, OtherValue, Pixel(6, 0)),
                          Event(MouseMove, OtherValue, Pixel(12, 0))], norm);
      && r.dots == [Dot(Vec2(12.0, 0.0), None)]
      && r.brush == Color(1.0, 0.5, 0.0)
      && r.state == StrokeState(Pixel(12, 0), Pixel(12, 0), true)
  {
    var events := [Event(LeftMouse, Press, Pixel(0, 0)),
                   Event(MouseMove, OtherValue, Pixel(6, 0)),
                   Event(MouseMove, OtherValue, Pixel(12, 0))];
    var pressed := StrokeState(Pixel(0, 0), Pixel(0, 0), true);
    var s1 := Session(pressed, brush, [], RunningModal);
    var s3 := Session(StrokeState(Pixel(12, 0), Pixel(12, 0), true), Color(1.0, 0.5, 0.0), [Dot(Vec2(12.0, 0.0), None)], RunningModal);
    assert events == [events[0]] + events[1..];
    PressStartsStroke(ImageEditor, 10.0, Start(brush), events[0], events[1..], norm);
    ShortMoveIgnored(norm);
    RunFirst(ImageEditor, 10.0, s1, events[1..], norm);
    assert events[1..][1..] == events[2..];
    SecondMoveCommits(norm);
    RunFirst(ImageEditor, 10.0, s1, events[2..], norm);
    assert events[2..][1..] == [];
    assert [] + [Dot(Vec2(12.0, 0.0), None)] == s3.dots;
  }

  /** The dots of a 52-pixel move along +x from the origin with a spacing
      of 10. */
  lemma JumpDots()
    ensures StrokeDots(Pixel(0, 0), Pixel(52, 0), 52.0, 10.0, None)
      == [Dot(Vec2(52.0, 0.0), None), Dot(Vec2(41.6, 0.0), None), Dot(Vec2(31.2, 0.0), None),
          Dot(Vec2(20.8, 0.0), None), Dot(Vec2(10.4, 0.0), None)]
  {
    assert SubstepCount(52.0, 10.0) == 5;
    var r := Substeps(Pixel(0, 0), Pixel(52, 0), 5, 5, None);
    assert Quot(1.0, 5.0) == 0.2;
    forall i | 0 <= i < 5
      ensures r[i] == Dot(Vec2(52.0 - 10.4 * i as real, 0.0), None)
    {
      assert Mix(5, 5 - i) == 0.2 * (5 - i) as real;
    }
  }

  /** A jump of 52 pixels with a spacing of 10 paints five dots, at 5/5,
      4/5, ..., 1/5 of the way from the previous position. */
  lemma FastJumpBackfills(norm: Vec3 -> real)
    requires IsEuclidean(norm)
    ensures Step(ImageEditor, 10.0, StrokeState(Pixel(0, 0), Pixel(0, 0), true), Event(MouseMove, OtherValue, Pixel(52, 0)), norm).dots
      == [Dot(Vec2(52.0, 0.0), None), Dot(Vec2(41.6, 0.0), None), Dot(Vec2(31.2, 0.0), None),
          Dot(Vec2(20.8, 0.0), None), Dot(Vec2(10.4, 0.0), None)]
  {
    var pressed := StrokeState(Pixel(0, 0), Pixel(0, 0), true);
    var ev := Event(MouseMove, OtherValue, Pixel(52, 0));
    assert ToVec2(PixelSub(pressed.furthest, ev.pos)) == Vec2(-52.0, 0.0);
    assert Sq(-52.0) == 2704.0 && Sq(52.0) == 2704.0 && Sq(0.0) == 0.0;
    MoveBackfills(ImageEditor, 10.0, pressed, ev, 52.0, norm);
    JumpDots();
  }

  /** The dots of a 70-pixel move along -x from (100, 0) with a spacing of
      10. */
  lemma ReturnDots()
    ensures StrokeDots(Pixel(100, 0), Pixel(30, 0), 30.0, 10.0, None)
      == [Dot(Vec2(30.0, 0.0), None), Dot(Vec2(160.0 / 3.0, 0.0), None), Dot(Vec2(230.0 / 3.0, 0.0), None)]
  {
    assert SubstepCount(30.0, 10.0) == 3;
    var dots := Substeps(Pixel(100, 0), Pixel(30, 0), 3, 3, None);
    assert Quot(1.0, 3.0) == 1.0 / 3.0;
    assert Mix(3, 3) == 1.0 && Mix(3, 2) == 2.0 / 3.0 && Mix(3, 1) == 1.0 / 3.0;
    assert dots[0] == Dot(Vec2(30.0, 0.0), None);
    assert dots[1] == Dot(Vec2(160.0 / 3.0, 0.0), None);
    assert dots[2] == Dot(Vec2(230.0 / 3.0, 0.0), None);
  }

  /** After the earlier stroke committed at (100, 0), a press at the origin
      and a move to (30, 0) with a spacing of 10. */
  lemma MoveAfterPress(norm: Vec3 -> real)
    requires IsEuclidean(norm)
    ensures Step(ImageEditor, 10.0, StrokeState(Pixel(0, 0), Pixel(100, 0), true), Event(MouseMove, OtherValue, Pixel(30, 0)), norm)
      == Reaction(StrokeState(Pixel(30, 0), Pixel(30, 0), true), Some(Color(0.0, 0.5, 0.0)),
                  [Dot(Vec2(30.0, 0.0), None), Dot(Vec2(160.0 / 3.0, 0.0), None), Dot(Vec2(230.0 / 3.0, 0.0), None)], RunningModal)
  {
    var pressed := StrokeState(Pixel(0, 0), Pixel(100, 0), true);
    var ev := Event(MouseMove, OtherValue, Pixel(30, 0));
    assert ToVec2(PixelSub(pressed.furthest, ev.pos)) == Vec2(-30.0, 0.0);
    assert Sq(-30.0) == 900.0 && Sq(30.0) == 900.0 && Sq(0.0) == 0.0;
    MoveBackfills(ImageEditor, 10.0, pressed, ev, 30.0, norm);
    ReturnDots();
    assert ToVec2(ev.pos) == Vec2(30.0, 0.0) && ToVec2(pressed.prev) == Vec2(100.0, 0.0);
    ScreenHorizontal(30.0, 100.0, norm);
  }

  /** A press does not move the previous position: after a stroke that
      committed at (100, 0), a press at the origin and a move to (30, 0) take
      their direction and their back-fill from (100, 0). */
  lemma PressKeepsPrevious(brush: Color, norm: Vec3 -> real)
    requires IsEuclidean(norm)
    ensures var r := Run(ImageEditor, 10.0, Session(StrokeState(Pixel(100, 0), Pixel(100, 0), false), brush, [], RunningModal),
                         [Event(LeftMouse, Press, Pixel(0, 0)), Event(MouseMove, OtherValue, Pixel(30, 0))], norm);
      && r.brush == Color(0.0, 0.5, 0.0)
      && r.dots == [Dot(Vec2(30.0, 0.0), None), Dot(Vec2(160.0 / 3.0, 0.0), None), Dot(Vec2(230.0 / 3.0, 0.0), None)]
  {
    var s0 := Session(StrokeState(Pixel(100, 0), Pixel(100, 0), false), brush, [], RunningModal);
    PressThenMove(ImageEditor, 10.0, s0, Event(LeftMouse, Press, Pixel(0, 0)), Event(MouseMove, OtherValue, Pixel(30, 0)), norm);
    MoveAfterPress(norm);
    assert s0.dots + [Dot(Vec2(30.0, 0.0), None), Dot(Vec2(160.0 / 3.0, 0.0), None), Dot(Vec2(230.0 / 3.0, 0.0), None)]
      == [Dot(Vec2(30.0, 0.0), None), Dot(Vec2(160.0 / 3.0, 0.0), None), Dot(Vec2(230.0 / 3.0, 0.0), None)];
  }
}
