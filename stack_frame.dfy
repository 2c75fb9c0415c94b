/** FocusedStackFrame: the outline drawn around the focused window stack.

    The surface calls the frame makes (setSize, setPosition, the clipped
    colour fills of a locked canvas, unlockCanvasAndPost, show, hide) are
    recorded, in order, as a sequence of Effects. Whether the surface could
    be allocated, and whether each lockCanvas returns a canvas, are decided
    by the compositor and enter the model as parameters. */
module StackFrame {
  import opened Rects
  import opened Border

  /** Color.TRANSPARENT as an ARGB word. */
  const TRANSPARENT: int := 0x0000_0000
  /** Color.WHITE as an ARGB word (the Java int -1). */
  const WHITE: int := 0xFFFF_FFFF

  /** One call on the frame's surface. */
  datatype Effect =
    | SetSize(w: int, h: int)          // SurfaceControl.setSize
    | SetPosition(x: int, y: int)      // SurfaceControl.setPosition
    | Fill(clip: Rect, color: int)     // Canvas.clipRect(REPLACE) then drawColor
    | Post                             // Surface.unlockCanvasAndPost
    | Show                             // SurfaceControl.show
    | Hide                             // SurfaceControl.hide

  /** What positionSurface(b) asks of the surface: size it to b, then move
      it to b's top-left corner. */
  function PositionEffects(b: Rect): (r: seq<Effect>) {
    [SetSize(b.Width(), b.Height()), SetPosition(b.left, b.top)]
  }

  /** What draw(b, color) asks of the surface: nothing when the canvas
      cannot be locked; otherwise one fill per stripe of a b-sized surface,
      in stripe order, and one post. */
  function DrawEffects(b: Rect, color: int, locked: bool): (r: seq<Effect>) {
    if locked then
      var s := Stripes(b.Width(), b.Height());
      [Fill(s[0], color), Fill(s[1], color), Fill(s[2], color), Fill(s[3], color), Post]
    else []
  }

  /** The fields of a frame: whether its surface exists (mSurfaceControl is
      not null), the requested rectangle (mBounds) and the rectangle last
      painted (mLastBounds). */
  datatype FrameState = FrameState(hasSurface: bool, bounds: Rect, lastBounds: Rect)

  /** The state a frame is in after its constructor: both rectangles empty. */
  function Initial(hasSurface: bool): (s: FrameState) {
    FrameState(hasSurface, Empty, Empty)
  }

  /** The outcome of one call: the new fields and the surface calls made. */
  datatype Step = Step(state: FrameState, effects: seq<Effect>)

  /** Erase `prior` where it was painted, then paint `next` where it now is. */
  function Redraw(prior: Rect, next: Rect, eraseLocked: bool, paintLocked: bool): (r: seq<Effect>) {
    PositionEffects(prior) + DrawEffects(prior, TRANSPARENT, eraseLocked) +
    PositionEffects(next) + DrawEffects(next, WHITE, paintLocked)
  }

  /** setVisibility(on), with eraseLocked and paintLocked telling whether the
      erase's and the paint's lockCanvas return a canvas. */
  function SetVisibilityStep(s: FrameState, on: bool, eraseLocked: bool, paintLocked: bool): (step: Step) {
    if !s.hasSurface then Step(s, [])
    else if !on then Step(s, [Hide])
    else if s.lastBounds == s.bounds then Step(s, [Show])
    else Step(s.(lastBounds := s.bounds),
              Redraw(s.lastBounds, s.bounds, eraseLocked, paintLocked) + [Show])
  }

  /** setBounds(r). */
  function SetBoundsStep(s: FrameState, r: Rect): (step: Step) {
    Step(s.(bounds := r), [])
  }

  /** A caller's request to the frame, with the lock outcomes it meets. */
  datatype Call =
    | SetBoundsCall(r: Rect)
    | SetVisibilityCall(on: bool, eraseLocked: bool, paintLocked: bool)

  function Apply(s: FrameState, c: Call): (step: Step) {
    match c
    case SetBoundsCall(r) => SetBoundsStep(s, r)
    case SetVisibilityCall(on, e, p) => SetVisibilityStep(s, on, e, p)
  }

  /** A sequence of calls from state s: the final state and every surface
      call made, in order. */
  function Run(s: FrameState, calls: seq<Call>): (step: Step)
    decreases |calls|
  {
    if calls == [] then Step(s, [])
    else
      var prev := Run(s, calls[..|calls| - 1]);
      var last := Apply(prev.state, calls[|calls| - 1]);
      Step(last.state, prev.effects + last.effects)
  }

  class FocusedStackFrame {
    /** mSurfaceControl != null: the surface was allocated. Fixed for life. */
    const hasSurface: bool
    /** mLastBounds */
    var lastBounds: Rect
    /** mBounds */
    var bounds: Rect
    /** The calls made on the surface so far, oldest first. */
    var effects: seq<Effect>

    function State(): (s: FrameState)
      reads this
    {
      FrameState(hasSurface, bounds, lastBounds)
    }

    /** The constructor: `allocates` says whether the SurfaceControl could
        be created. Either way both rectangles start empty. */
    constructor (allocates: bool)
      ensures State() == Initial(allocates)
      ensures effects == []
    {
      hasSurface := allocates;
      lastBounds := Empty;
      bounds := Empty;
      effects := [];
    }

    method Draw(b: Rect, color: int, locked: bool)
      modifies this`effects
      ensures effects == old(effects) + DrawEffects(b, color, locked)
    {
      if !locked {
        return;
      }
      var w := b.Width();
      var h := b.Height();
      // Top
      effects := effects + [Fill(Rect(0, 0, w, THICKNESS), color)];
      // Left, between the top and bottom stripes
      effects := effects + [Fill(Rect(0, THICKNESS, THICKNESS, h - THICKNESS), color)];
      // Right, between the top and bottom stripes
      effects := effects + [Fill(Rect(w - THICKNESS, THICKNESS, w, h - THICKNESS), color)];
      // Bottom
      effects := effects + [Fill(Rect(0, h - THICKNESS, w, h), color)];
      effects := effects + [Post];
    }

    method PositionSurface(b: Rect)
      requires hasSurface
      modifies this`effects
      ensures effects == old(effects) + PositionEffects(b)
    {
      effects := effects + [SetSize(b.Width(), b.Height())];
      effects := effects + [SetPosition(b.left, b.top)];
    }

    /** The caller is expected to hold a surface transaction open around
        this call; the model does not depend on it. */
    method SetVisibility(on: bool, eraseLocked: bool, paintLocked: bool)
      modifies this`lastBounds, this`effects
      ensures State() == SetVisibilityStep(old(State()), on, eraseLocked, paintLocked).state
      ensures effects == old(effects) + SetVisibilityStep(old(State()), on, eraseLocked, paintLocked).effects
      ensures bounds == old(bounds)
      ensures hasSurface && on ==> lastBounds == bounds
      ensures !hasSurface || !on ==> lastBounds == old(lastBounds)
    {
      if !hasSurface {
        return;
      }
      if on {
        if lastBounds != bounds {
          // Erase the previous rectangle.
          PositionSurface(lastBounds);
          Draw(lastBounds, TRANSPARENT, eraseLocked);
          // Draw the latest rectangle.
          PositionSurface(bounds);
          Draw(bounds, WHITE, paintLocked);
          lastBounds := bounds;
        }
        effects := effects + [Show];
      } else {
        effects := effects + [Hide];
      }
    }

    method SetBounds(r: Rect)
      modifies this`bounds
      ensures bounds == r
      ensures lastBounds == old(lastBounds) && effects == old(effects)
      ensures State() == SetBoundsStep(old(State()), r).state
    {
      bounds := r;
    }
  }
}
