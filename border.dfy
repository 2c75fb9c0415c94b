/** The geometry of the hollow outline: four stripes of fixed thickness,
    in the surface's own coordinates (0, 0)-(w, h). */
module Border {
  import opened Rects

  /** Width of the outline in pixels. */
  const THICKNESS: int := 10

  /** The stripes `draw` fills, in the order it fills them: top, left,
      right, bottom. The side stripes stop short of the top and bottom
      stripes. No guard for small w or h: the rectangles are computed as
      they come. */
  function Stripes(w: int, h: int): (r: seq<Rect>)
    ensures |r| == 4
  {
    [ Rect(0, 0, w, THICKNESS),
      Rect(0, THICKNESS, THICKNESS, h - THICKNESS),
      Rect(w - THICKNESS, THICKNESS, w, h - THICKNESS),
      Rect(0, h - THICKNESS, w, h) ]
  }

  /** The stripes exactly as `draw` computes them in Java int arithmetic:
      `bounds.width()`, `bounds.height()`, `w - THICKNESS` and
      `h - THICKNESS` all wrap into 32 bits. */
  function JavaStripes(b: Rect): (r: seq<Rect>)
    ensures |r| == 4
  {
    var w := Sub32(b.right, b.left);
    var h := Sub32(b.bottom, b.top);
    [ Rect(0, 0, w, THICKNESS),
      Rect(0, THICKNESS, THICKNESS, Sub32(h, THICKNESS)),
      Rect(Sub32(w, THICKNESS), THICKNESS, w, Sub32(h, THICKNESS)),
      Rect(0, Sub32(h, THICKNESS), w, h) ]
  }

  /** The unbounded stripes the model uses are the ones Java computes
      whenever the rectangle's width and height fit in an int and are not
      within THICKNESS of its lower end, as every rectangle on a display
      is. */
  lemma JavaStripesAgree(b: Rect)
    requires IsInt32(b.Width()) && IsInt32(b.Height())
    requires b.Width() >= INT_MIN + THICKNESS && b.Height() >= INT_MIN + THICKNESS
    ensures JavaStripes(b) == Stripes(b.Width(), b.Height())
  {
    var w, h := b.Width(), b.Height();
    assert Sub32(b.right, b.left) == w && Sub32(b.bottom, b.top) == h;
    assert Sub32(w, THICKNESS) == w - THICKNESS && Sub32(h, THICKNESS) == h - THICKNESS;
  }

  /** Outside that range the two differ: for Rect(0, 0, 100, INT_MIN) Java's
      `h - THICKNESS` wraps to INT_MAX - 9, so its left stripe is not empty,
      while the unbounded left stripe is. */
  lemma JavaStripesWrapAtIntMin()
    ensures !JavaStripes(Rect(0, 0, 100, INT_MIN))[1].IsEmpty()
    ensures Stripes(100, INT_MIN)[1].IsEmpty()
  {
    assert Sub32(INT_MIN, THICKNESS) == INT_MAX - 9;
  }

  /** The reference outline: the points of the surface (0, 0)-(w, h) that
      lie less than THICKNESS from one of its edges. */
  ghost predicate InBand(w: int, h: int, x: int, y: int) {
    0 <= x < w && 0 <= y < h &&
    (x < THICKNESS || w - THICKNESS <= x || y < THICKNESS || h - THICKNESS <= y)
  }

  /** Within the surface, the four stripes cover exactly the band along its
      edges, whatever w and h are (a small surface included). */
  lemma StripesCoverBand(w: int, h: int, x: int, y: int)
    requires 0 <= x < w && 0 <= y < h
    ensures Covered(Stripes(w, h), x, y) <==> InBand(w, h, x, y)
  {
    var s := Stripes(w, h);
    if InBand(w, h, x, y) {
      var i := if y < THICKNESS then 0
               else if h - THICKNESS <= y then 3
               else if x < THICKNESS then 1
               else 2;
      assert s[i].Contains(x, y);
    }
    if Covered(s, x, y) {
      var i :| 0 <= i < 4 && s[i].Contains(x, y);
      assert i == 0 || i == 1 || i == 2 || i == 3;
    }
  }

  /** Once the surface is at least two thicknesses wide and high, every
      stripe is a well-formed rectangle inside the surface, so the stripes
      cover exactly the band even before clipping to the surface. */
  lemma StripesInsideSurface(w: int, h: int, x: int, y: int)
    requires w >= 2 * THICKNESS && h >= 2 * THICKNESS
    ensures forall i :: 0 <= i < 4 ==>
              0 <= Stripes(w, h)[i].left <= Stripes(w, h)[i].right <= w &&
              0 <= Stripes(w, h)[i].top <= Stripes(w, h)[i].bottom <= h
    ensures Covered(Stripes(w, h), x, y) <==> InBand(w, h, x, y)
  {
    var s := Stripes(w, h);
    if 0 <= x < w && 0 <= y < h {
      StripesCoverBand(w, h, x, y);
    } else {
      forall i | 0 <= i < 4
        ensures !s[i].Contains(x, y)
      {
      }
    }
  }

  /** On a surface at least two thicknesses wide and high no point is
      filled twice: the four stripes are pairwise disjoint. */
  lemma StripesDisjoint(w: int, h: int, x: int, y: int)
    requires w >= 2 * THICKNESS && h >= 2 * THICKNESS
    ensures forall i, j :: 0 <= i < j < 4 && Stripes(w, h)[i].Contains(x, y) ==>
              !Stripes(w, h)[j].Contains(x, y)
  {
  }

  /** A surface less than two thicknesses high has empty side stripes: the
      computation degrades to nothing, not to an error. */
  lemma ShortSurfaceSidesEmpty(w: int, h: int)
    requires h < 2 * THICKNESS
    ensures Stripes(w, h)[1].IsEmpty() && Stripes(w, h)[2].IsEmpty()
  {
  }

  function Area(r: Rect): (a: nat)
    ensures a == 0 <==> r.IsEmpty()
  {
    if r.IsEmpty() then 0 else r.Width() * r.Height()
  }

  /** The cost of a draw is the band, not the interior: on a surface at
      least two thicknesses wide and high the stripes' areas add up to
      2 * THICKNESS * (w + h) - 4 * THICKNESS * THICKNESS, which is at most
      THICKNESS times the perimeter. */
  lemma StripesArea(w: int, h: int)
    requires w >= 2 * THICKNESS && h >= 2 * THICKNESS
    ensures Area(Stripes(w, h)[0]) + Area(Stripes(w, h)[1]) +
            Area(Stripes(w, h)[2]) + Area(Stripes(w, h)[3])
            == 2 * THICKNESS * (w + h) - 4 * THICKNESS * THICKNESS
    ensures Area(Stripes(w, h)[0]) + Area(Stripes(w, h)[1]) +
            Area(Stripes(w, h)[2]) + Area(Stripes(w, h)[3])
            <= THICKNESS * (2 * w + 2 * h)
  {
  }
}
