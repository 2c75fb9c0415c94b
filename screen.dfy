/** Where the frame's fills land on the display.

    A fill is made in the surface's own coordinates and is clipped to the
    surface, so where it lands depends on the size and position the
    surface was last given. This module replays an effect trace against
    that requested placement. It says which display area each fill
    targets; it does not say how the compositor blends the result. */
module Screen {
  import opened Rects
  import opened Border
  import opened StackFrame

  /** The size and top-left corner the surface was last given. */
  datatype Placement = Placement(x: int, y: int, w: int, h: int) {
    /** The display rectangle the surface occupies. */
    function Window(): (r: Rect) { Rect(x, y, x + w, y + h) }
  }

  /** A fill in display coordinates: the clip rectangle moved to where the
      surface is, and the surface's window that limits it. */
  datatype Stroke = Stroke(area: Rect, window: Rect, color: int) {
    predicate Hits(x: int, y: int) { area.Contains(x, y) && window.Contains(x, y) }
  }

  /** The placement after one effect: only setSize and setPosition move
      or resize the surface. */
  function Next(e: Effect, p: Placement): (q: Placement) {
    match e
    case SetSize(w, h) => p.(w := w, h := h)
    case SetPosition(x, y) => p.(x := x, y := y)
    case _ => p
  }

  /** The stroke one effect makes on a surface placed at p: a fill lands
      at the clip rectangle moved to p's corner, within p's window. */
  function Made(e: Effect, p: Placement): (r: seq<Stroke>) {
    match e
    case Fill(clip, color) => [Stroke(clip.Offset(p.x, p.y), p.Window(), color)]
    case _ => []
  }

  /** The placement after the effects, starting from p. */
  function Settle(effects: seq<Effect>, p: Placement): (q: Placement)
    decreases |effects|
  {
    if effects == [] then p else Settle(effects[1..], Next(effects[0], p))
  }

  /** The strokes the effects make, in order, starting from placement p. */
  function Strokes(effects: seq<Effect>, p: Placement): (r: seq<Stroke>)
    decreases |effects|
  {
    if effects == [] then []
    else Made(effects[0], p) + Strokes(effects[1..], Next(effects[0], p))
  }

  /** Some stroke of the given colour hits the display point (x, y). */
  ghost predicate Paints(strokes: seq<Stroke>, color: int, x: int, y: int) {
    exists i :: 0 <= i < |strokes| && strokes[i].color == color && strokes[i].Hits(x, y)
  }

  /** The reference outline of b on the display: the points of b less than
      THICKNESS from one of its edges. */
  ghost predicate InOutline(b: Rect, x: int, y: int) {
    InBand(b.Width(), b.Height(), x - b.left, y - b.top)
  }

  /** Replaying a trace in two parts is replaying the first part, then the
      second from where the first left the surface. */
  lemma {:induction false} StrokesAppend(a: seq<Effect>, b: seq<Effect>, p: Placement)
    ensures Strokes(a + b, p) == Strokes(a, p) + Strokes(b, Settle(a, p))
    ensures Settle(a + b, p) == Settle(b, Settle(a, p))
    decreases |a|
  {
    if a == [] {
      assert a + b == b;
    } else {
      assert (a + b)[0] == a[0];
      assert (a + b)[1..] == a[1..] + b;
      StrokesAppend(a[1..], b, Next(a[0], p));
    }
  }

  /** A colour is painted by a two-part stroke list exactly when one of
      the parts paints it. */
  lemma PaintsAppend(a: seq<Stroke>, b: seq<Stroke>, color: int, x: int, y: int)
    ensures Paints(a + b, color, x, y) <==> Paints(a, color, x, y) || Paints(b, color, x, y)
  {
    if Paints(a, color, x, y) {
      var i :| 0 <= i < |a| && a[i].color == color && a[i].Hits(x, y);
      assert (a + b)[i] == a[i];
    }
    if Paints(b, color, x, y) {
      var i :| 0 <= i < |b| && b[i].color == color && b[i].Hits(x, y);
      assert (a + b)[|a| + i] == b[i];
    }
    if Paints(a + b, color, x, y) {
      var i :| 0 <= i < |a + b| && (a + b)[i].color == color && (a + b)[i].Hits(x, y);
      if i < |a| {
        assert a[i] == (a + b)[i];
      } else {
        assert b[i - |a|] == (a + b)[i];
      }
    }
  }

  /** positionSurface(b) puts the surface's window exactly on b and paints
      nothing. */
  lemma PositionPlaces(b: Rect, p: Placement)
    ensures Settle(PositionEffects(b), p) == Placement(b.left, b.top, b.Width(), b.Height())
    ensures Settle(PositionEffects(b), p).Window() == b
    ensures Strokes(PositionEffects(b), p) == []
  {
    var e := PositionEffects(b);
    var p1 := Next(e[0], p);
    var p2 := Next(e[1], p1);
    assert e[1..][1..] == [];
    assert Settle(e[1..], p1) == Settle([], p2);
    assert Strokes(e[1..], p1) == Strokes([], p2);
  }

  /** The strokes a successful draw of b makes on a surface placed at q:
      one per stripe of a b-sized surface, moved to q's corner. */
  function StripeStrokes(b: Rect, color: int, q: Placement): (r: seq<Stroke>) {
    var s := Stripes(b.Width(), b.Height());
    [ Stroke(s[0].Offset(q.x, q.y), q.Window(), color),
      Stroke(s[1].Offset(q.x, q.y), q.Window(), color),
      Stroke(s[2].Offset(q.x, q.y), q.Window(), color),
      Stroke(s[3].Offset(q.x, q.y), q.Window(), color) ]
  }

  /** The strokes of one draw on a surface placed at q, in stripe order;
      none when the lock fails. The draw does not move the surface. */
  lemma DrawStrokes(b: Rect, color: int, locked: bool, q: Placement)
    ensures Settle(DrawEffects(b, color, locked), q) == q
    ensures Strokes(DrawEffects(b, color, locked), q) ==
            if locked then StripeStrokes(b, color, q) else []
  {
    var e := DrawEffects(b, color, locked);
    if locked {
      var m := seq(4, i requires 0 <= i < 4 => Made(e[i], q)[0]);
      assert e[4..][1..] == [];
      assert Strokes(e[4..], q) == [] && Settle(e[4..], q) == q;
      assert e[3..][1..] == e[4..];
      assert Strokes(e[3..], q) == [m[3]] && Settle(e[3..], q) == q;
      assert e[2..][1..] == e[3..];
      assert Strokes(e[2..], q) == [m[2], m[3]] && Settle(e[2..], q) == q;
      assert e[1..][1..] == e[2..];
      assert Strokes(e[1..], q) == [m[1], m[2], m[3]] && Settle(e[1..], q) == q;
      assert Strokes(e, q) == [m[0], m[1], m[2], m[3]];
    }
  }

  /** On a surface placed exactly on b, the stripes of b hit, in their
      colour and no other, exactly the outline of b. */
  lemma StripeStrokesPaintOutline(b: Rect, color: int, c: int, x: int, y: int)
    ensures Paints(StripeStrokes(b, color, Placement(b.left, b.top, b.Width(), b.Height())), c, x, y)
            <==> c == color && InOutline(b, x, y)
  {
    var q := Placement(b.left, b.top, b.Width(), b.Height());
    var strokes := StripeStrokes(b, color, q);
    var w, h := b.Width(), b.Height();
    var s := Stripes(w, h);
    assert q.Window() == b;
    if Paints(strokes, c, x, y) {
      var i :| 0 <= i < 4 && strokes[i].color == c && strokes[i].Hits(x, y);
      assert s[i].Contains(x - b.left, y - b.top);
      StripesCoverBand(w, h, x - b.left, y - b.top);
    }
    if c == color && InOutline(b, x, y) {
      StripesCoverBand(w, h, x - b.left, y - b.top);
      var i :| 0 <= i < 4 && s[i].Contains(x - b.left, y - b.top);
      assert strokes[i].Hits(x, y);
    }
  }

  /** Positioning the surface on b and then drawing b paints, in the draw's
      colour and in no other, exactly the outline of b on the display (when
      the lock succeeds), and leaves the surface on b. */
  lemma PositionAndDrawPaintsOutline(b: Rect, color: int, locked: bool, p: Placement,
                                     c: int, x: int, y: int)
    ensures Settle(PositionEffects(b) + DrawEffects(b, color, locked), p).Window() == b
    ensures Paints(Strokes(PositionEffects(b) + DrawEffects(b, color, locked), p), c, x, y)
            <==> locked && c == color && InOutline(b, x, y)
  {
    var pos, draw := PositionEffects(b), DrawEffects(b, color, locked);
    StrokesAppend(pos, draw, p);
    PositionPlaces(b, p);
    var q := Settle(pos, p);
    DrawStrokes(b, color, locked, q);
    assert Strokes(pos + draw, p) == Strokes(draw, q);
    if locked {
      StripeStrokesPaintOutline(b, color, c, x, y);
    }
  }

  /** Every stroke of positioning on b and drawing b has the draw's colour. */
  lemma PositionAndDrawColour(b: Rect, color: int, locked: bool, p: Placement)
    ensures forall i :: 0 <= i < |Strokes(PositionEffects(b) + DrawEffects(b, color, locked), p)| ==>
              Strokes(PositionEffects(b) + DrawEffects(b, color, locked), p)[i].color == color
  {
    StrokesAppend(PositionEffects(b), DrawEffects(b, color, locked), p);
    PositionPlaces(b, p);
    DrawStrokes(b, color, locked, Settle(PositionEffects(b), p));
  }
}
