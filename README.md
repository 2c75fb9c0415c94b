# FocusedStackFrame, modelled in Dafny

The window manager's `FocusedStackFrame` outlines the focused window stack
with a hollow white rectangle, ten pixels thick, on a surface of its own.
The caller stores the rectangle to highlight with `setBounds` and then calls
`setVisibility`. If the rectangle moved since it was last painted,
`setVisibility(true)` does four things in order:

1. it moves the surface back over the old rectangle;
2. it erases the old outline by drawing it again in transparent;
3. it moves the surface onto the new rectangle;
4. it draws the new outline in white.

Then it shows the surface. `setVisibility(false)` only hides it. A frame
whose surface could not be allocated does nothing at all.

This project models that class. Each call the frame makes on its surface
is recorded in order as an `Effect`:

- `SetSize` and `SetPosition`;
- `Fill`, a clip rectangle filled with one colour;
- `Post`, which is `unlockCanvasAndPost`;
- `Show` and `Hide`.

The project has five modules:

- `Rects`: `android.graphics.Rect` as a value. The frame only copies
  rectangles (`Rect.set`) and compares them (`Rect.equals`).
- `Border`: the constant `THICKNESS` and the four stripes `draw` fills,
  in the order top, left, right, bottom. Lemmas relate the stripes to an
  independent definition of the outline band: the points less than
  `THICKNESS` from an edge.
- `StackFrame`:
  - the class `FocusedStackFrame`, with the fields `lastBounds` and
    `bounds`, a fixed `hasSurface` flag (`mSurfaceControl != null`) and
    the effect log;
  - pure step functions (`SetVisibilityStep`, `SetBoundsStep`, `Run`)
    that specify the class's methods.
- `Screen`: replays an effect log against the size and position last
  requested for the surface. This shows where on the display each fill
  lands.
- `FrameProperties`: what the controller guarantees, such as:
  - inert without a surface;
  - hide only hides;
  - showing twice paints once;
  - erase before paint;
  - exact outlines;
  - the calls made by setBounds(0,0,100,50), show,
    setBounds(20,20,120,70), show.

Allocation and canvas locking are decided by the compositor, so they enter
the model as parameters:

- the constructor's `allocates` says whether the surface was allocated;
- `SetVisibility`'s `eraseLocked` and `paintLocked` say whether each
  `lockCanvas` returned a canvas.

Three facts about the code are worth stating on their own:

- `draw` fills the stripes in the order top, left, right, bottom
  (FocusedStackFrame.java lines 74-89).
- `mLastBounds.set(mBounds)` runs after every redraw, whatever the
  outcome of either canvas lock (line 118).
- The first `setVisibility(true)` after a `setBounds` first erases the
  initial empty rectangle (0,0,0,0), then paints the new one (lines
  110-116). `WorkedExample` shows these calls.

Rectangle coordinates, widths and heights are unbounded integers in the
model. `Border.JavaStripesAgree` proves that they give the same stripes as
Java's wrapping 32-bit arithmetic for every rectangle whose width and
height fit in an int and are at least `INT_MIN + THICKNESS`.

## Model

| member | source | states |
|---|---|---|
| `Border.StripesCoverBand` | services/java/com/android/server/wm/FocusedStackFrame.java:71-89 | inside a w×h surface, a point lies in one of the four stripes exactly when it lies less than THICKNESS from an edge. This holds for every w and h, small ones included, in unbounded arithmetic (see `Border.JavaStripesAgree` for where that matches Java's int arithmetic) |
| `Border.JavaStripesAgree` | services/java/com/android/server/wm/FocusedStackFrame.java:71-87 | the stripes computed in Java's wrapping int arithmetic equal the model's unbounded stripes. This holds whenever the width and height fit in an int and are at least INT_MIN + THICKNESS |
| `Border.JavaStripesWrapAtIntMin` | services/java/com/android/server/wm/FocusedStackFrame.java:79-80 | outside that range the two differ: for Rect(0,0,100,INT_MIN), Java's `h - THICKNESS` wraps, so its left stripe is not empty, while the model's is |
| `Border.StripesInsideSurface` | services/java/com/android/server/wm/FocusedStackFrame.java:71-89 | on a surface at least 2·THICKNESS wide and high, every stripe is well-formed and lies inside the surface, so the stripes cover exactly the band even before clipping |
| `Border.StripesDisjoint` | services/java/com/android/server/wm/FocusedStackFrame.java:74-89 | on a surface at least 2·THICKNESS wide and high, no point lies in two stripes |
| `Border.ShortSurfaceSidesEmpty` | services/java/com/android/server/wm/FocusedStackFrame.java:78-85 | on a surface lower than 2·THICKNESS, the left and right stripes are empty rectangles: the unguarded arithmetic degrades to nothing |
| `Border.StripesArea` | services/java/com/android/server/wm/FocusedStackFrame.java:71-89 | the stripes' areas add up to 2T(w+h) − 4T², at most T times the perimeter: a draw costs the border, not the interior |
| `StackFrame.FocusedStackFrame.constructor` | services/java/com/android/server/wm/FocusedStackFrame.java:37-55 | the frame starts with both rectangles empty, no surface call made, and a surface flag fixed by whether allocation succeeded |
| `StackFrame.FocusedStackFrame.Draw` | services/java/com/android/server/wm/FocusedStackFrame.java:57-92 | a failed lock adds nothing. A successful one adds one fill per stripe of a bounds-sized surface, top, left, right, bottom, in the given colour, and then one post |
| `StackFrame.FocusedStackFrame.PositionSurface` | services/java/com/android/server/wm/FocusedStackFrame.java:94-98 | adds setSize(width, height) and then setPosition(left, top) of the rectangle |
| `StackFrame.FocusedStackFrame.SetVisibility` | services/java/com/android/server/wm/FocusedStackFrame.java:102-124 | the new fields and the added calls are those of `SetVisibilityStep`. `bounds` is unchanged. After `on`, `lastBounds == bounds`. Without a surface, or when hiding, `lastBounds` is unchanged |
| `StackFrame.FocusedStackFrame.SetBounds` | services/java/com/android/server/wm/FocusedStackFrame.java:126-129 | `bounds` becomes the argument; `lastBounds` and the effect log are unchanged |
| `Screen.PositionPlaces` | services/java/com/android/server/wm/FocusedStackFrame.java:94-98 | after positionSurface(b) the surface occupies exactly b on the display, and nothing is painted |
| `Screen.DrawStrokes` | services/java/com/android/server/wm/FocusedStackFrame.java:60-91 | a draw does not move the surface. It paints the four stripes in order, offset to the surface's corner and limited to its window, or nothing when the lock fails |
| `Screen.PositionAndDrawPaintsOutline` | services/java/com/android/server/wm/FocusedStackFrame.java:57-98 | positioning on b and then drawing b paints exactly the on-screen outline of b when the lock succeeds. It paints only in the draw's colour and leaves the surface on b |
| `FrameProperties.SetBoundsOnlyRecords` | services/java/com/android/server/wm/FocusedStackFrame.java:126-129 | setBounds sets the requested rectangle, makes no surface call, and leaves the last painted rectangle and the surface flag alone |
| `FrameProperties.InertWithoutSurface` | services/java/com/android/server/wm/FocusedStackFrame.java:106-108 | without a surface, any sequence of calls makes no surface call and never changes the last painted rectangle |
| `FrameProperties.HideOnlyHides` | services/java/com/android/server/wm/FocusedStackFrame.java:121-123 | setVisibility(false) makes exactly one hide call and changes no field |
| `FrameProperties.SettledShowOnly` | services/java/com/android/server/wm/FocusedStackFrame.java:109-120 | setVisibility(true) with lastBounds equal to bounds makes exactly one show call and changes no field |
| `FrameProperties.ShowSettles` | services/java/com/android/server/wm/FocusedStackFrame.java:109-119 | after setVisibility(true), the last painted rectangle equals the requested one, whatever the lock outcomes |
| `FrameProperties.FreshFrameShowsOnly` | services/java/com/android/server/wm/FocusedStackFrame.java:39-40 | both rectangles start empty, so showing a fresh frame paints nothing |
| `FrameProperties.ShowIdempotent` | services/java/com/android/server/wm/FocusedStackFrame.java:109-120 | a second setVisibility(true) with no setBounds in between only shows |
| `FrameProperties.VisibilityOnlyToggles` | services/java/com/android/server/wm/FocusedStackFrame.java:102-124 | from a settled frame, any sequence of show and hide calls changes no field. Its only surface calls are show and hide: hiding never erases, and showing again never redraws |
| `FrameProperties.RedrawReplay` | services/java/com/android/server/wm/FocusedStackFrame.java:110-120 | after a move, setVisibility(true) replays as positioning and drawing the old rectangle, then positioning and drawing the new one, and ends with show |
| `FrameProperties.RedrawPaintsOutlines` | services/java/com/android/server/wm/FocusedStackFrame.java:110-120 | after a move, setVisibility(true) paints transparent exactly over the old rectangle's on-screen outline and white exactly over the new one's, each only if its lock succeeds. It uses no other colour, leaves the surface on the new rectangle, and ends with show |
| `FrameProperties.EraseBeforePaint` | services/java/com/android/server/wm/FocusedStackFrame.java:111-116 | after a move, every transparent fill comes before every white fill |
| `FrameProperties.WorkedExampleFirstShow` | services/java/com/android/server/wm/FocusedStackFrame.java:110-120 | the exact calls of the first show in the scenario: erase the empty initial rectangle with its degenerate stripes, then paint (0,0,100,50) with the stripes (0,0,100,10), (0,10,10,40), (90,10,100,40), (0,40,100,50), then show |
| `FrameProperties.WorkedExampleSecondShow` | services/java/com/android/server/wm/FocusedStackFrame.java:110-120 | the exact calls of the second show: erase (0,0,100,50) in place, move the 100×50 surface to (20,20), paint the same local stripes white, then show |
| `FrameProperties.WorkedExample` | services/java/com/android/server/wm/FocusedStackFrame.java:102-129 | setBounds(0,0,100,50), show, setBounds(20,20,120,70), show on an allocated frame whose locks all succeed. Both rectangles end at (20,20,120,70), and the trace is the two shows' calls in turn |

## Left out

- The Android `SurfaceControl`, `Surface`, `Canvas`, `SurfaceSession` and `Display` internals. Each call on them is an `Effect` appended to the frame's log. Allocation failure and lock failure, from `OutOfResourcesException` or `IllegalArgumentException`, are boolean parameters.
- The constructor's layer stack, layer (z-order) and `setAlpha(ALPHA)` calls, and `mSurface.copyFrom`. They are fixed configuration of the surface, including a float constant. The constructor keeps only "allocated or not".
- The dirty rectangle passed to `lockCanvas`, and the scratch rectangle `mTmpDrawRect`. The dirty rectangle is an argument to the graphics library and cannot change which fills the frame makes. The stripes are computed directly.
- Pixel semantics of `clipRect(REPLACE)` and `drawColor`: blending, and the picture that ends up on screen. `Screen` says only which display area each fill targets, given the size and position last requested for the surface.
- That the compositor applies setSize and setPosition when the caller's transaction closes. The replay in `Screen` uses the requested placement.
- The `Surface.openTransaction()`/`closeTransaction()` framing that callers must provide. It is a contract on callers and does not change what this class does.
- `DEBUG_STACK` logging through `Slog`. It only produces output.
- Whether the surface is currently shown. The class keeps no such field; the `Show` and `Hide` effects record each request.
- `Color.WHITE` is modelled as the unsigned ARGB word 0xFFFFFFFF rather than the Java int −1. Only its difference from `TRANSPARENT` matters here.
- `Border.Stripes`, `StackFrame.PositionEffects`, `StackFrame.DrawEffects`: rectangles whose width or height overflows a 32-bit int, or is within THICKNESS of `INT_MIN`, are not modelled. For those, Java's `width()`, `height()`, `w - THICKNESS` and `h - THICKNESS` wrap and the model's do not. For example, Java calls `setSize(-1, 50)` for Rect(INT_MIN,0,INT_MAX,50), where the model records `SetSize(4294967295, 50)`. `Border.JavaStripes` gives the wrapping computation, and `Border.JavaStripesAgree` bounds where the two coincide.
