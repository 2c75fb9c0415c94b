/** What the frame's controller guarantees: which surface calls each entry
    point makes, what it leaves alone, and where its fills land. */
module FrameProperties {
  import opened Rects
  import opened Border
  import opened StackFrame
  import opened Screen

  /** setBounds only records the rectangle: no surface call, and the last
      painted rectangle stays what it was. */
  lemma SetBoundsOnlyRecords(s: FrameState, r: Rect)
    ensures SetBoundsStep(s, r).effects == []
    ensures SetBoundsStep(s, r).state.bounds == r
    ensures SetBoundsStep(s, r).state.lastBounds == s.lastBounds
    ensures SetBoundsStep(s, r).state.hasSurface == s.hasSurface
  {
  }

  /** A frame whose surface could not be allocated stays inert through any
      sequence of calls: no surface call at all, and the last painted
      rectangle never changes (setBounds still records its argument). */
  lemma {:induction false} InertWithoutSurface(s: FrameState, calls: seq<Call>)
    requires !s.hasSurface
    ensures Run(s, calls).effects == []
    ensures !Run(s, calls).state.hasSurface
    ensures Run(s, calls).state.lastBounds == s.lastBounds
    decreases |calls|
  {
    if calls != [] {
      InertWithoutSurface(s, calls[..|calls| - 1]);
    }
  }

  /** setVisibility(false) hides the surface and does nothing else: no
      positioning, no drawing, no change to either rectangle. */
  lemma HideOnlyHides(s: FrameState, eraseLocked: bool, paintLocked: bool)
    requires s.hasSurface
    ensures SetVisibilityStep(s, false, eraseLocked, paintLocked) == Step(s, [Hide])
  {
  }

  /** setVisibility(true) when nothing moved shows the surface and paints
      nothing. */
  lemma SettledShowOnly(s: FrameState, eraseLocked: bool, paintLocked: bool)
    requires s.hasSurface && s.lastBounds == s.bounds
    ensures SetVisibilityStep(s, true, eraseLocked, paintLocked) == Step(s, [Show])
  {
  }

  /** After setVisibility(true) the last painted rectangle is the requested
      one, whether or not either canvas could be locked. */
  lemma ShowSettles(s: FrameState, eraseLocked: bool, paintLocked: bool)
    requires s.hasSurface
    ensures SetVisibilityStep(s, true, eraseLocked, paintLocked).state.lastBounds == s.bounds
    ensures SetVisibilityStep(s, true, eraseLocked, paintLocked).state.bounds == s.bounds
  {
  }

  /** A fresh frame is settled: showing it before any setBounds paints
      nothing. */
  lemma FreshFrameShowsOnly(hasSurface: bool, eraseLocked: bool, paintLocked: bool)
    ensures SetVisibilityStep(Initial(hasSurface), true, eraseLocked, paintLocked).effects
            == if hasSurface then [Show] else []
  {
  }

  /** Showing twice with no setBounds between paints at most once: the
      second call only shows. */
  lemma ShowIdempotent(s: FrameState, e1: bool, p1: bool, e2: bool, p2: bool)
    ensures var first := SetVisibilityStep(s, true, e1, p1);
            SetVisibilityStep(first.state, true, e2, p2) ==
            Step(first.state, if s.hasSurface then [Show] else [])
  {
  }

  /** Once the last painted rectangle is the requested one, any number of
      show and hide calls without a setBounds between them changes no
      field and makes only show and hide calls: nothing is positioned,
      erased or drawn. */
  lemma {:induction false} VisibilityOnlyToggles(s: FrameState, calls: seq<Call>)
    requires s.lastBounds == s.bounds
    requires forall i :: 0 <= i < |calls| ==> calls[i].SetVisibilityCall?
    ensures Run(s, calls).state == s
    ensures forall k :: 0 <= k < |Run(s, calls).effects| ==>
              Run(s, calls).effects[k] == Show || Run(s, calls).effects[k] == Hide
    decreases |calls|
  {
    if calls != [] {
      var init := calls[..|calls| - 1];
      VisibilityOnlyToggles(s, init);
      var prev := Run(s, init);
      var c := calls[|calls| - 1];
      var last := Apply(prev.state, c);
      assert last.effects == [] || last.effects == [Show] || last.effects == [Hide];
      var all := prev.effects + last.effects;
      forall k | 0 <= k < |all|
        ensures all[k] == Show || all[k] == Hide
      {
        if k >= |prev.effects| {
          assert all[k] == last.effects[k - |prev.effects|];
        }
      }
    }
  }

  /** The surface calls of setVisibility(true) after the rectangle moved
      replay as the erase of the last painted rectangle, then the paint of
      the requested one, then show. */
  lemma RedrawReplay(s: FrameState, eraseLocked: bool, paintLocked: bool, p: Placement)
    requires s.hasSurface && s.lastBounds != s.bounds
    ensures var step := SetVisibilityStep(s, true, eraseLocked, paintLocked);
            var erase := PositionEffects(s.lastBounds) + DrawEffects(s.lastBounds, TRANSPARENT, eraseLocked);
            var paint := PositionEffects(s.bounds) + DrawEffects(s.bounds, WHITE, paintLocked);
            && Strokes(step.effects, p) == Strokes(erase, p) + Strokes(paint, Settle(erase, p))
            && Settle(step.effects, p) == Settle(paint, Settle(erase, p))
            && step.effects[|step.effects| - 1] == Show
  {
    var erase := PositionEffects(s.lastBounds) + DrawEffects(s.lastBounds, TRANSPARENT, eraseLocked);
    var paint := PositionEffects(s.bounds) + DrawEffects(s.bounds, WHITE, paintLocked);
    var effects := SetVisibilityStep(s, true, eraseLocked, paintLocked).effects;
    assert effects == erase + (paint + [Show]);
    StrokesAppend(erase, paint + [Show], p);
    var q := Settle(erase, p);
    StrokesAppend(paint, [Show], q);
    var r := Settle(paint, q);
    assert Strokes([Show], r) == [] && Settle([Show], r) == r;
  }

  /** What setVisibility(true) after the rectangle moved paints, replayed
      from any earlier surface placement: transparent exactly over the
      outline of the last painted rectangle (when that lock succeeds),
      white exactly over the outline of the requested one (when that lock
      succeeds), and no other colour anywhere. It leaves the surface on the
      requested rectangle, shown. */
  lemma RedrawPaintsOutlines(s: FrameState, eraseLocked: bool, paintLocked: bool,
                             p: Placement, c: int, x: int, y: int)
    requires s.hasSurface && s.lastBounds != s.bounds
    ensures var step := SetVisibilityStep(s, true, eraseLocked, paintLocked);
            && (Paints(Strokes(step.effects, p), c, x, y) <==>
                  (eraseLocked && c == TRANSPARENT && InOutline(s.lastBounds, x, y)) ||
                  (paintLocked && c == WHITE && InOutline(s.bounds, x, y)))
            && Settle(step.effects, p).Window() == s.bounds
            && step.effects[|step.effects| - 1] == Show
  {
    var erase := PositionEffects(s.lastBounds) + DrawEffects(s.lastBounds, TRANSPARENT, eraseLocked);
    var paint := PositionEffects(s.bounds) + DrawEffects(s.bounds, WHITE, paintLocked);
    RedrawReplay(s, eraseLocked, paintLocked, p);
    var q := Settle(erase, p);
    PaintsAppend(Strokes(erase, p), Strokes(paint, q), c, x, y);
    PositionAndDrawPaintsOutline(s.lastBounds, TRANSPARENT, eraseLocked, p, c, x, y);
    PositionAndDrawPaintsOutline(s.bounds, WHITE, paintLocked, q, c, x, y);
  }

  /** setVisibility(true) after the rectangle moved erases before it
      paints: replayed from any surface placement, every transparent fill
      comes before every white one. */
  lemma EraseBeforePaint(s: FrameState, eraseLocked: bool, paintLocked: bool, p: Placement)
    requires s.hasSurface && s.lastBounds != s.bounds
    ensures var strokes := Strokes(SetVisibilityStep(s, true, eraseLocked, paintLocked).effects, p);
            forall i, j :: 0 <= i < |strokes| && 0 <= j < |strokes| &&
                           strokes[i].color == TRANSPARENT && strokes[j].color == WHITE
                           ==> i < j
  {
    var erase := PositionEffects(s.lastBounds) + DrawEffects(s.lastBounds, TRANSPARENT, eraseLocked);
    var paint := PositionEffects(s.bounds) + DrawEffects(s.bounds, WHITE, paintLocked);
    RedrawReplay(s, eraseLocked, paintLocked, p);
    var q := Settle(erase, p);
    var a, b := Strokes(erase, p), Strokes(paint, q);
    PositionAndDrawColour(s.lastBounds, TRANSPARENT, eraseLocked, p);
    PositionAndDrawColour(s.bounds, WHITE, paintLocked, q);
  }

  /** The first show of the worked example: the empty initial rectangle is
      erased (its stripes are degenerate), then (0,0,100,50) is painted. */
  lemma WorkedExampleFirstShow()
    ensures SetVisibilityStep(FrameState(true, Rect(0, 0, 100, 50), Empty), true, true, true) ==
            Step(FrameState(true, Rect(0, 0, 100, 50), Rect(0, 0, 100, 50)),
                 [ SetSize(0, 0), SetPosition(0, 0),
                   Fill(Rect(0, 0, 0, 10), TRANSPARENT), Fill(Rect(0, 10, 10, -10), TRANSPARENT),
                   Fill(Rect(-10, 10, 0, -10), TRANSPARENT), Fill(Rect(0, -10, 0, 0), TRANSPARENT),
                   Post,
                   SetSize(100, 50), SetPosition(0, 0),
                   Fill(Rect(0, 0, 100, 10), WHITE), Fill(Rect(0, 10, 10, 40), WHITE),
                   Fill(Rect(90, 10, 100, 40), WHITE), Fill(Rect(0, 40, 100, 50), WHITE),
                   Post, Show ])
  {
    var r1 := Rect(0, 0, 100, 50);
    var z := [Rect(0, 0, 0, 10), Rect(0, 10, 10, -10), Rect(-10, 10, 0, -10), Rect(0, -10, 0, 0)];
    var s := [Rect(0, 0, 100, 10), Rect(0, 10, 10, 40), Rect(90, 10, 100, 40), Rect(0, 40, 100, 50)];
    assert Stripes(0, 0) == z;
    assert Stripes(100, 50) == s;
    assert DrawEffects(Empty, TRANSPARENT, true) ==
           [Fill(z[0], TRANSPARENT), Fill(z[1], TRANSPARENT), Fill(z[2], TRANSPARENT), Fill(z[3], TRANSPARENT), Post];
    assert DrawEffects(r1, WHITE, true) ==
           [Fill(s[0], WHITE), Fill(s[1], WHITE), Fill(s[2], WHITE), Fill(s[3], WHITE), Post];
    assert PositionEffects(Empty) == [SetSize(0, 0), SetPosition(0, 0)];
    assert PositionEffects(r1) == [SetSize(100, 50), SetPosition(0, 0)];
  }

  /** The second show of the worked example: (0,0,100,50) is erased in
      place, then the surface moves to (20,20) and the same local stripes
      are painted white. */
  lemma WorkedExampleSecondShow()
    ensures SetVisibilityStep(FrameState(true, Rect(20, 20, 120, 70), Rect(0, 0, 100, 50)), true, true, true) ==
            Step(FrameState(true, Rect(20, 20, 120, 70), Rect(20, 20, 120, 70)),
                 [ SetSize(100, 50), SetPosition(0, 0),
                   Fill(Rect(0, 0, 100, 10), TRANSPARENT), Fill(Rect(0, 10, 10, 40), TRANSPARENT),
                   Fill(Rect(90, 10, 100, 40), TRANSPARENT), Fill(Rect(0, 40, 100, 50), TRANSPARENT),
                   Post,
                   SetSize(100, 50), SetPosition(20, 20),
                   Fill(Rect(0, 0, 100, 10), WHITE), Fill(Rect(0, 10, 10, 40), WHITE),
                   Fill(Rect(90, 10, 100, 40), WHITE), Fill(Rect(0, 40, 100, 50), WHITE),
                   Post, Show ])
  {
    var r1, r2 := Rect(0, 0, 100, 50), Rect(20, 20, 120, 70);
    var s := [Rect(0, 0, 100, 10), Rect(0, 10, 10, 40), Rect(90, 10, 100, 40), Rect(0, 40, 100, 50)];
    assert Stripes(100, 50) == s;
    assert r1.Width() == r2.Width() == 100 && r1.Height() == r2.Height() == 50;
    assert DrawEffects(r1, TRANSPARENT, true) ==
           [Fill(s[0], TRANSPARENT), Fill(s[1], TRANSPARENT), Fill(s[2], TRANSPARENT), Fill(s[3], TRANSPARENT), Post];
    assert DrawEffects(r2, WHITE, true) ==
           [Fill(s[0], WHITE), Fill(s[1], WHITE), Fill(s[2], WHITE), Fill(s[3], WHITE), Post];
    assert PositionEffects(r1) == [SetSize(100, 50), SetPosition(0, 0)];
    assert PositionEffects(r2) == [SetSize(100, 50), SetPosition(20, 20)];
  }

  /** The worked example: on an allocated frame whose every lock succeeds,
      setBounds(0,0,100,50), show, setBounds(20,20,120,70), show leaves
      both rectangles at (20,20,120,70), and its surface calls are those of
      the two shows in turn. */
  lemma WorkedExample()
    ensures
      var r1, r2 := Rect(0, 0, 100, 50), Rect(20, 20, 120, 70);
      var calls := [SetBoundsCall(r1), SetVisibilityCall(true, true, true),
                    SetBoundsCall(r2), SetVisibilityCall(true, true, true)];
      Run(Initial(true), calls) ==
      Step(FrameState(true, r2, r2),
           SetVisibilityStep(FrameState(true, r1, Empty), true, true, true).effects +
           SetVisibilityStep(FrameState(true, r2, r1), true, true, true).effects)
  {
    var r1, r2 := Rect(0, 0, 100, 50), Rect(20, 20, 120, 70);
    var calls := [SetBoundsCall(r1), SetVisibilityCall(true, true, true),
                  SetBoundsCall(r2), SetVisibilityCall(true, true, true)];
    var first := SetVisibilityStep(FrameState(true, r1, Empty), true, true, true);
    WorkedExampleFirstShow();
    WorkedExampleSecondShow();
    assert calls[..1][..0] == [];
    assert Run(Initial(true), calls[..1]) == Step(FrameState(true, r1, Empty), []);
    assert calls[..2][..1] == calls[..1];
    assert Run(Initial(true), calls[..2]) == Step(FrameState(true, r1, r1), [] + first.effects);
    assert calls[..3][..2] == calls[..2];
    assert Run(Initial(true), calls[..3]) == Step(FrameState(true, r2, r1), first.effects);
    assert calls[..4] == calls;
  }
}
