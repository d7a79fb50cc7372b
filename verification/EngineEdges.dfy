/** The four edges in one coordinate: how deep a position lies behind the shared edge. */
module EngineEdges {
  import opened Common
  import opened AxisMap
  import opened EngineCore
  import opened EngineRuns
  import opened EngineReturn

  // ---- One axis --------------------------------------------------------------------------------

  predicate Sideways(l: Layout) { l.edge == Left || l.edge == Right }

  /** The shared edge is where the crossing axis is 0. */
  predicate AtOrigin(l: Layout) { l.edge == Left || l.edge == Top }

  /** The component along the crossing axis, and the one along the edge. */
  function Along(l: Layout, x: int, y: int): int { if Sideways(l) then x else y }
  function Across(l: Layout, x: int, y: int): int { if Sideways(l) then y else x }

  function LastPixel(len: int): int { if len >= 1 then len - 1 else 0 }

  /** Last pixel of the crossing axis, here and on the peer. */
  function Span(l: Layout): int { LastPixel(Along(l, l.width, l.height)) }
  function PeerSpan(l: Layout): int { LastPixel(Along(l, l.peerWidth, l.peerHeight)) }

  /** Pixels between the shared edge and a position, on each display. */
  function Depth(l: Layout, x: int, y: int): int {
    if AtOrigin(l) then Along(l, x, y) else Span(l) - Along(l, x, y)
  }
  function PeerDepth(l: Layout, x: int, y: int): int {
    if AtOrigin(l) then PeerSpan(l) - Along(l, x, y) else Along(l, x, y)
  }

  /** How far a motion goes home. */
  function Inward(l: Layout, dx: int, dy: int): int {
    if AtOrigin(l) then Along(l, dx, dy) else -Along(l, dx, dy)
  }

  function Between(v: int, last: int): int { if v < 0 then 0 else if v > last then last else v }

  // ---- The edge predicates -----------------------------------------------------------------------

  /** On every edge: crossing out starts within 8 pixels and reaches the edge; re-arming is deeper than 8; the local
      escape is a home-ward motion within 8 pixels of the far side; the threshold is the axis, at least 64. */
  lemma {:induction false} LocalEdges(l: Layout, x: int, y: int, dx: int, dy: int)
    requires l.Valid()
    ensures CrossesOut(l, x, y, dx, dy) <==> Depth(l, x, y) <= 8 && Depth(l, x, y) + Inward(l, dx, dy) <= 0
    ensures LeftCrossEdge(l, x, y) <==> Depth(l, x, y) > 8
    ensures EscapesBack(l, x, y, dx, dy) <==> Span(l) - Depth(l, x, y) <= 8 && Inward(l, dx, dy) > 0
    ensures EscapeThreshold(l) == Max(Along(l, l.width, l.height), 64)
    ensures TrueHomeward(l, dx, dy) == Inward(l, dx, dy)
  {
  }

  lemma {:induction false} PeerEdges(c: Core, dx: int, dy: int)
    requires c.layout.Valid() && OnPeer(c.layout, c.peerX, c.peerY)
    ensures CrossesBack(c, dx, dy) <==> PeerDepth(c.layout, c.peerX, c.peerY) == 0 && Inward(c.layout, dx, dy) > 0
    ensures PeerLeftEntryEdge(c) <==> PeerDepth(c.layout, c.peerX, c.peerY) > 0
  {
  }

  /** Both cursors enter on the shared edge, at the mapped position along it. */
  lemma {:induction false} EntersOnEdge(c: Core, x: int, y: int)
    requires c.layout.Valid()
    ensures var l := c.layout;
            var (px, py) := EntryPoint(l, x, y);
            && PeerDepth(l, px, py) == 0
            && Across(l, px, py) ==
               MapAxis(Across(l, x, y), Across(l, l.width, l.height), Across(l, l.peerWidth, l.peerHeight))
    ensures var l := c.layout;
            var (rx, ry) := ReturnPoint(c);
            && Depth(l, rx, ry) == 0
            && Across(l, rx, ry) ==
               MapAxis(Across(l, c.peerX, c.peerY), Across(l, l.peerWidth, l.peerHeight), Across(l, l.width, l.height))
  {
  }

  // ---- What a motion does ----------------------------------------------------------------------------

  /** While owning, a motion hands over exactly when crossing is armed and allowed and it reaches the edge; otherwise
      it arms crossing exactly when it lies deeper than the margin. */
  lemma {:induction false} HandsOverIff(c: Core, x: int, y: int, dx: int, dy: int)
    requires Inv(c) && c.Owns()
    ensures var c' := Apply(c, Local(CursorMoved(x, y, dx, dy))).0;
            var d := Depth(c.layout, x, y);
            && (!c'.Owns() <==>
                  c.crossOutArmed && !c.suppressBlocked && d <= 8 && d + Inward(c.layout, dx, dy) <= 0)
            && (c'.Owns() ==> (c'.crossOutArmed <==> c.crossOutArmed || d > 8))
  {
    LocalEdges(c.layout, x, y, dx, dy);
  }

  /** Where the peer cursor goes when the device moves by (dx, dy). */
  function Moved(c: Core, dx: int, dy: int): (int, int) {
    (Between(c.peerX + dx, LastPixel(c.layout.peerWidth)), Between(c.peerY + dy, LastPixel(c.layout.peerHeight)))
  }

  lemma {:induction false} DrivenIsMoved(c: Core, dx: int, dy: int)
    requires Inv(c)
    ensures (Driven(c, dx, dy).peerX, Driven(c, dx, dy).peerY) == Moved(c, dx, dy)
    ensures OnPeer(c.layout, Moved(c, dx, dy).0, Moved(c, dx, dy).1)
  {
  }

  /** While the peer owns input, a motion comes home exactly in one of three ways: home-ward at the far side of our own
      display; a home-ward sum that reaches the threshold and fits an i32; or home-ward at the peer's near edge, after
      its cursor had left that edge. */
  lemma {:induction false} ComesHomeIff(c: Core, x: int, y: int, dx: int, dy: int)
    requires Inv(c) && !c.Owns() && InI32(dx) && InI32(dy)
    ensures var l := c.layout;
            var (inward, sum) := (Inward(l, dx, dy), c.escapeTravel + Inward(l, dx, dy));
            var (px, py) := Moved(c, dx, dy);
            Apply(c, Local(CursorMoved(x, y, dx, dy))).0.Owns() <==>
              || (Span(l) - Depth(l, x, y) <= 8 && inward > 0)
              || (Max(Along(l, l.width, l.height), 64) <= sum <= I32_MAX)
              || (c.reclaimArmed && PeerDepth(l, px, py) == 0 && inward > 0)
  {
    LocalEdges(c.layout, x, y, dx, dy);
    DrivenIsMoved(c, dx, dy);
    PeerEdges(Driven(c, dx, dy), dx, dy);
    TravelExactIff(c, dx, dy);
    EscapeIff(c, dx, dy);
    var d := Driven(c, dx, dy);
    assert d.layout == c.layout && (d.reclaimArmed <==> c.reclaimArmed || PeerDepth(c.layout, d.peerX, d.peerY) > 0);
  }

  /** Only the return over the peer's near edge moves our cursor: to the shared edge, at the fraction where the peer's
      cursor stood. */
  lemma {:induction false} WarpsIff(c: Core, x: int, y: int, dx: int, dy: int)
    requires Inv(c) && !c.Owns() && InI32(dx) && InI32(dy)
    ensures var l := c.layout;
            var (inward, sum) := (Inward(l, dx, dy), c.escapeTravel + Inward(l, dx, dy));
            var (px, py) := Moved(c, dx, dy);
            var acts := Apply(c, Local(CursorMoved(x, y, dx, dy))).1;
            if !(Span(l) - Depth(l, x, y) <= 8 && inward > 0)
               && !(Max(Along(l, l.width, l.height), 64) <= sum <= I32_MAX)
               && c.reclaimArmed && PeerDepth(l, px, py) == 0 && inward > 0
            then |acts| == 6 && acts[5] == WarpCursor(ReturnPoint(c.(peerX := px, peerY := py)).0,
                                                      ReturnPoint(c.(peerX := px, peerY := py)).1)
            else forall k :: 0 <= k < |acts| ==> !acts[k].WarpCursor?
  {
    LocalEdges(c.layout, x, y, dx, dy);
    DrivenIsMoved(c, dx, dy);
    PeerEdges(Driven(c, dx, dy), dx, dy);
    EscapeIff(c, dx, dy);
    var d := Driven(c, dx, dy);
    assert d.layout == c.layout && (d.reclaimArmed <==> c.reclaimArmed || PeerDepth(c.layout, d.peerX, d.peerY) > 0);
    var (px, py) := Moved(c, dx, dy);
    assert ReturnPoint(d) == ReturnPoint(c.(peerX := px, peerY := py));
  }

  lemma {:induction false} EscapeIff(c: Core, dx: int, dy: int)
    requires Inv(c) && !c.Owns() && InI32(dx) && InI32(dy)
    ensures Travelled(c, dx, dy) >= EscapeThreshold(c.layout) <==>
            EscapeThreshold(c.layout) <= c.escapeTravel + TrueHomeward(c.layout, dx, dy) <= I32_MAX
  {
    TravelExactIff(c, dx, dy);
  }
}
