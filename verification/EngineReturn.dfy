/** Coming home: hysteresis at the edge, bounded reclaim, the emergency escape, and continuity of the cursor. */
module EngineReturn {
  import opened Common
  import opened AxisMap
  import opened Ownership
  import opened EngineCore
  import opened EngineRuns

  predicate Crosses(c: Core, es: seq<Event>, k: nat)
    requires k < |es|
  {
    At(c, es, k).Owns() && !At(c, es, k + 1).Owns()
  }

  predicate Reclaims(c: Core, es: seq<Event>, k: nat)
    requires k < |es|
  {
    !At(c, es, k).Owns() && At(c, es, k + 1).Owns()
  }

  /** Step `k` of a run, as one transition between states that satisfy the invariant. */
  lemma {:induction false} StepAt(c: Core, es: seq<Event>, k: nat)
    requires Inv(c) && k < |es|
    ensures Inv(At(c, es, k)) && Inv(At(c, es, k + 1)) && At(c, es, k).layout == c.layout
    ensures At(c, es, k + 1) == Apply(At(c, es, k), es[k]).0
  {
    RunKeeps(c, es[..k]);
    RunKeeps(c, es[..k + 1]);
    Extend(c, es, k);
  }

  lemma {:induction false} FalseStays(bs: seq<bool>, i: nat, j: nat)
    requires i <= j < |bs| && !bs[i]
    requires forall k :: i <= k < j && !bs[k] ==> !bs[k + 1]
    ensures !bs[j]
  {
    if i < j { FalseStays(bs, i, j - 1); }
  }

  lemma {:induction false} Ascends(ns: seq<nat>, i: nat, j: nat)
    requires i <= j < |ns|
    requires forall k :: 0 <= k < |ns| - 1 ==> ns[k] <= ns[k + 1]
    ensures ns[i] <= ns[j]
  {
    if i < j { Ascends(ns, i, j - 1); }
  }

  // ---- The four edges are one edge ----------------------------------------------------------

  function MirrorEdge(e: Edge): Edge {
    match e
    case Left => Right
    case Right => Left
    case Top => Bottom
    case Bottom => Top
  }

  function TransposeEdge(e: Edge): Edge {
    match e
    case Left => Top
    case Right => Bottom
    case Top => Left
    case Bottom => Right
  }

  function Transposed(l: Layout): Layout {
    Layout(l.height, l.width, l.peerHeight, l.peerWidth, TransposeEdge(l.edge))
  }

  /** The home-ward component of a delta as an unbounded integer. */
  function TrueHomeward(l: Layout, dx: int, dy: int): int {
    match l.edge
    case Left => dx
    case Right => -dx
    case Bottom => -dy
    case Top => dy
  }

  /** On the boundary pixel of the shared edge, or beyond it. */
  predicate AtCrossEdge(l: Layout, x: int, y: int) {
    match l.edge
    case Left => x <= 0
    case Right => x >= AxisMax(l.width)
    case Bottom => y >= AxisMax(l.height)
    case Top => y <= 0
  }

  /** Reflecting both displays and the motion exchanges opposite edges and changes no decision. */
  lemma {:induction false} MirrorSymmetry(l: Layout, x: int, y: int, dx: int, dy: int)
    requires l.Valid()
    ensures var m := l.(edge := MirrorEdge(l.edge));
            var (x', y') := (AxisMax(l.width) - x, AxisMax(l.height) - y);
            && (CrossesOut(l, x, y, dx, dy) <==> CrossesOut(m, x', y', -dx, -dy))
            && (LeftCrossEdge(l, x, y) <==> LeftCrossEdge(m, x', y'))
            && (EscapesBack(l, x, y, dx, dy) <==> EscapesBack(m, x', y', -dx, -dy))
            && TrueHomeward(l, dx, dy) == TrueHomeward(m, -dx, -dy)
            && EscapeThreshold(l) == EscapeThreshold(m)
  {
  }

  /** Exchanging the axes exchanges horizontal and vertical edges and changes no decision. */
  lemma {:induction false} TransposeSymmetry(l: Layout, x: int, y: int, dx: int, dy: int)
    ensures var t := Transposed(l);
            && (CrossesOut(l, x, y, dx, dy) <==> CrossesOut(t, y, x, dy, dx))
            && (LeftCrossEdge(l, x, y) <==> LeftCrossEdge(t, y, x))
            && (EscapesBack(l, x, y, dx, dy) <==> EscapesBack(t, y, x, dy, dx))
            && TrueHomeward(l, dx, dy) == TrueHomeward(t, dy, dx)
            && EscapeThreshold(l) == EscapeThreshold(t)
            && EntryPoint(t, y, x) == (EntryPoint(l, x, y).1, EntryPoint(l, x, y).0)
  {
  }

  /** A cursor that crosses out moves outward or is already at the edge, and is never inside the re-arm margin. */
  lemma {:induction false} CrossingIsOutward(l: Layout, x: int, y: int, dx: int, dy: int)
    requires l.Valid()
    ensures CrossesOut(l, x, y, dx, dy) ==> AtCrossEdge(l, x, y) || TrueHomeward(l, dx, dy) < 0
    ensures CrossesOut(l, x, y, dx, dy) ==> !LeftCrossEdge(l, x, y)
  {
  }

  // ---- No ping-pong ------------------------------------------------------------------------

  /** A cursor event strictly inside the re-arm margin. */
  predicate Inside(l: Layout, e: Event) {
    e.Local? && e.local.CursorMoved? && LeftCrossEdge(l, e.local.x, e.local.y)
  }

  lemma {:induction false} StaysDisarmed(c: Core, e: Event)
    requires !c.crossOutArmed && !Inside(c.layout, e)
    ensures !Apply(c, e).0.crossOutArmed && (c.Owns() ==> Apply(c, e).0.Owns())
  {
  }

  lemma {:induction false} ReturnDisarms(c: Core, x: int, y: int, dx: int, dy: int)
    requires !c.Owns() && OnPeerCursor(c, x, y, dx, dy).0.Owns()
    ensures !OnPeerCursor(c, x, y, dx, dy).0.crossOutArmed
  {
  }

  lemma {:induction false} ReclaimDisarms(c: Core, e: Event)
    requires !c.Owns() && Apply(c, e).0.Owns()
    ensures !Apply(c, e).0.crossOutArmed
  {
    if e.Local? && e.local.CursorMoved? { ReturnDisarms(c, e.local.x, e.local.y, e.local.dx, e.local.dy); }
  }

  /** A reclaim disarms crossing, only an event inside the margin arms it, and a crossing needs it armed. */
  lemma {:induction false} ArmingAt(c: Core, es: seq<Event>, k: nat)
    requires Inv(c) && k < |es|
    ensures Reclaims(c, es, k) ==> !At(c, es, k + 1).crossOutArmed
    ensures !At(c, es, k).crossOutArmed && !Inside(c.layout, es[k]) ==> !At(c, es, k + 1).crossOutArmed
    ensures Crosses(c, es, k) ==> At(c, es, k).crossOutArmed
  {
    StepAt(c, es, k);
    var c' := At(c, es, k);
    if !c'.crossOutArmed && !Inside(c.layout, es[k]) { StaysDisarmed(c', es[k]); }
    if Reclaims(c, es, k) { ReclaimDisarms(c', es[k]); }
    if Crosses(c, es, k) { CrossNeedsArming(c', es[k]); }
  }

  /** Between a reclaim and the next crossing some cursor event lies strictly inside the re-arm margin. */
  lemma {:induction false} NoPingPong(c: Core, es: seq<Event>, i: nat, j: nat)
    requires Inv(c) && i < j < |es| && Reclaims(c, es, i) && Crosses(c, es, j)
    ensures exists k :: i < k < j && Inside(c.layout, es[k])
  {
    ArmingAt(c, es, i);
    ArmingAt(c, es, j);
    if forall k :: i < k < j ==> !Inside(c.layout, es[k]) {
      var armed := seq(|es| + 1, k requires 0 <= k <= |es| => At(c, es, k).crossOutArmed);
      forall k | i + 1 <= k < j && !armed[k] ensures !armed[k + 1] { ArmingAt(c, es, k); }
      FalseStays(armed, i + 1, j);
    }
  }

  lemma {:induction false} CrossNeedsArming(c: Core, e: Event)
    requires c.Owns() && !Apply(c, e).0.Owns()
    ensures c.crossOutArmed
  {
  }

  // ---- Near-edge reclaim -----------------------------------------------------------------------

  /** The peer cursor did not leave its entry edge, so the back-cross stays disarmed. */
  lemma {:induction false} StaysUnarmed(c: Core, e: Event)
    requires Inv(c) && !c.Owns() && !c.reclaimArmed
    requires !Apply(c, e).0.Owns() && !PeerLeftEntryEdge(Apply(c, e).0)
    ensures !Apply(c, e).0.reclaimArmed
  {
  }

  lemma {:induction false} CrossDisarms(c: Core, e: Event)
    requires Inv(c) && c.Owns() && !Apply(c, e).0.Owns()
    ensures !Apply(c, e).0.reclaimArmed && Apply(c, e).0.escapeTravel == 0
  {
  }

  predicate Warps(acts: seq<Action>) { exists a :: a in acts && a.WarpCursor? }

  lemma {:induction false} WarpNeedsArming(c: Core, e: Event)
    requires Inv(c) && !c.Owns() && Warps(Apply(c, e).1)
    ensures c.reclaimArmed
  {
    if e.Local? && e.local.CursorMoved? {
      var d := Driven(c, e.local.dx, e.local.dy);
      assert CrossesBack(d, e.local.dx, e.local.dy) ==> !PeerLeftEntryEdge(d);
    }
  }

  /** A reclaim at the near edge (the one that warps) comes only after the peer cursor has left its entry edge. */
  lemma {:induction false} NearEdgeNeedsDeparture(c: Core, es: seq<Event>, i: nat, j: nat)
    requires Inv(c) && i < j < |es| && Crosses(c, es, i)
    requires forall k :: i < k <= j ==> !At(c, es, k).Owns()
    ensures Warps(Apply(At(c, es, j), es[j]).1) ==> exists k :: i + 1 < k <= j && PeerLeftEntryEdge(At(c, es, k))
  {
    if Warps(Apply(At(c, es, j), es[j]).1) && forall k :: i + 1 < k <= j ==> !PeerLeftEntryEdge(At(c, es, k)) {
      StepAt(c, es, j);
      WarpNeedsArming(At(c, es, j), es[j]);
      StepAt(c, es, i);
      CrossDisarms(At(c, es, i), es[i]);
      var armed := seq(|es| + 1, k requires 0 <= k <= |es| => At(c, es, k).reclaimArmed);
      forall k | i + 1 <= k < j && !armed[k] ensures !armed[k + 1] {
        StepAt(c, es, k);
        StaysUnarmed(At(c, es, k), es[k]);
      }
      FalseStays(armed, i + 1, j);
    }
  }

  // ---- Bounded reclaim ---------------------------------------------------------------------------

  lemma {:induction false} TickCounts(c: Core, e: Event)
    requires Inv(c)
    ensures c.misses <= Apply(c, e).0.misses
    ensures e.Tick? && !Apply(c, e).0.Owns() ==>
              Apply(c, e).0.misses == c.misses + 1 < HEARTBEAT_MISS_LIMIT
  {
  }

  /** The miss counter never falls, and a tick that does not end in ownership raises it below the limit. */
  predicate Counted(misses: seq<nat>, owns: seq<bool>, es: seq<Event>) {
    && |misses| == |owns| == |es| + 1
    && (forall m :: 0 <= m < |es| ==> misses[m] <= misses[m + 1])
    && (forall m :: 0 <= m < |es| && es[m].Tick? && !owns[m + 1] ==> misses[m] < misses[m + 1] < HEARTBEAT_MISS_LIMIT)
  }

  lemma {:induction false} ThreeCounted(misses: seq<nat>, owns: seq<bool>, es: seq<Event>, i: nat, j: nat, k: nat)
    requires Counted(misses, owns, es)
    requires i < j < k < |es| && es[i].Tick? && es[j].Tick? && es[k].Tick?
    ensures owns[i + 1] || owns[j + 1] || owns[k + 1]
  {
    Ascends(misses, i + 1, j);
    Ascends(misses, j + 1, k);
  }

  lemma {:induction false} RunIsCounted(c: Core, es: seq<Event>, m: nat)
    requires Inv(c) && m < |es|
    ensures At(c, es, m).misses <= At(c, es, m + 1).misses
    ensures es[m].Tick? && !At(c, es, m + 1).Owns() ==>
              At(c, es, m).misses < At(c, es, m + 1).misses < HEARTBEAT_MISS_LIMIT
  {
    StepAt(c, es, m);
    TickCounts(At(c, es, m), es[m]);
  }

  lemma {:induction false} RunCounts(c: Core, es: seq<Event>, misses: seq<nat>, owns: seq<bool>)
    requires Inv(c) && |misses| == |owns| == |es| + 1
    requires forall m :: 0 <= m <= |es| ==> misses[m] == At(c, es, m).misses && owns[m] == At(c, es, m).Owns()
    ensures Counted(misses, owns, es)
  {
    forall m | 0 <= m < |es|
      ensures misses[m] <= misses[m + 1]
              && (es[m].Tick? && !owns[m + 1] ==> misses[m] < misses[m + 1] < HEARTBEAT_MISS_LIMIT)
    {
      RunIsCounted(c, es, m);
    }
  }

  /** Of any three ticks without incoming messages, the source owns input right after at least one. */
  lemma {:induction false} ThreeTicksReclaim(c: Core, es: seq<Event>, i: nat, j: nat, k: nat)
    requires Inv(c) && i < j < k < |es| && es[i].Tick? && es[j].Tick? && es[k].Tick?
    ensures At(c, es, i + 1).Owns() || At(c, es, j + 1).Owns() || At(c, es, k + 1).Owns()
  {
    var misses := seq(|es| + 1, m requires 0 <= m <= |es| => At(c, es, m).misses);
    var owns := seq(|es| + 1, m requires 0 <= m <= |es| => At(c, es, m).Owns());
    RunCounts(c, es, misses, owns);
    ThreeCounted(misses, owns, es, i, j, k);
  }

  // ---- Emergency escape ------------------------------------------------------------------------------

  function Delta(l: Layout, e: Event): int {
    if e.Local? && e.local.CursorMoved? then TrueHomeward(l, e.local.dx, e.local.dy) else 0
  }

  /** Net home-ward travel of a block of events. */
  function Travel(l: Layout, es: seq<Event>): int {
    if es == [] then 0 else Travel(l, es[..|es| - 1]) + Delta(l, es[|es| - 1])
  }

  /** `m` is the largest home-ward travel over any suffix of `es`, the empty one included. */
  predicate LargestSuffix(l: Layout, es: seq<Event>, m: int) {
    && (exists k :: 0 <= k <= |es| && Travel(l, es[k..]) == m)
    && (forall k :: 0 <= k <= |es| ==> Travel(l, es[k..]) <= m)
  }

  lemma {:induction false} SuffixGrows(l: Layout, es: seq<Event>, m: int)
    requires es != [] && LargestSuffix(l, es[..|es| - 1], m)
    ensures LargestSuffix(l, es, Max(m + Delta(l, es[|es| - 1]), 0))
  {
    var init, d := es[..|es| - 1], Delta(l, es[|es| - 1]);
    forall k | 0 <= k <= |init| ensures Travel(l, es[k..]) == Travel(l, init[k..]) + d {
      assert es[k..][..|es[k..]| - 1] == init[k..];
    }
    var w :| 0 <= w <= |init| && Travel(l, init[w..]) == m;
    assert Travel(l, es[w..]) == m + d;
    assert Travel(l, es[|es|..]) == 0;
  }

  /** Deltas are i32 values whose home-ward part plus the threshold stays within 2^31. */
  predicate Moderate(l: Layout, es: seq<Event>) {
    forall e :: e in es ==> ModerateEvent(l, e)
  }

  predicate ModerateEvent(l: Layout, e: Event) {
    && (e.Local? && e.local.CursorMoved? ==> InI32(e.local.dx) && InI32(e.local.dy))
    && Delta(l, e) + EscapeThreshold(l) <= I32_MAX + 1
  }

  /** The 32-bit accumulator is the true clamped sum exactly when that sum does not exceed i32::MAX. */
  lemma {:induction false} TravelExactIff(c: Core, dx: int, dy: int)
    requires InI32(dx) && InI32(dy) && 0 <= c.escapeTravel <= I32_MAX
    ensures var sum := c.escapeTravel + TrueHomeward(c.layout, dx, dy);
            Travelled(c, dx, dy) == Max(sum, 0) <==> sum <= I32_MAX
  {
  }

  /** The device moved home at the peer's near edge, with the way back armed. */
  predicate ReturnsAtEdge(c: Core, dx: int, dy: int) {
    Driven(c, dx, dy).reclaimArmed && CrossesBack(Driven(c, dx, dy), dx, dy)
  }

  /** A push whose true home-ward sum reaches the threshold reclaims exactly when that sum fits an i32 or one of
      the other two ways back is open. */
  lemma {:induction false} PushReclaimsIff(c: Core, x: int, y: int, dx: int, dy: int)
    requires Inv(c) && !c.Owns() && InI32(dx) && InI32(dy)
    requires c.escapeTravel + TrueHomeward(c.layout, dx, dy) >= EscapeThreshold(c.layout)
    ensures Apply(c, Local(CursorMoved(x, y, dx, dy))).0.Owns() <==>
            || c.escapeTravel + TrueHomeward(c.layout, dx, dy) <= I32_MAX
            || EscapesBack(c.layout, x, y, dx, dy)
            || ReturnsAtEdge(c, dx, dy)
  {
    TravelExactIff(c, dx, dy);
    var sum := c.escapeTravel + TrueHomeward(c.layout, dx, dy);
    if sum > I32_MAX { assert Travelled(c, dx, dy) == 0; }
  }

  /** So the escape does fail: right after any crossing of the right edge, a push of i32::MIN from outside the escape
      zone travels past the threshold and leaves the peer the owner. */
  lemma {:induction false} HugePushIsLost(c: Core, e: Event, x: int, y: int)
    requires Inv(c) && c.Owns() && !Apply(c, e).0.Owns() && c.layout.edge == Right && x > EDGE_REARM_MARGIN
    ensures var push := Local(CursorMoved(x, y, I32_MIN, 0));
            && Travel(c.layout, [push]) >= EscapeThreshold(c.layout)
            && !Apply(Apply(c, e).0, push).0.Owns()
  {
    var out, push := Apply(c, e).0, Local(CursorMoved(x, y, I32_MIN, 0));
    ApplyGood(c, e);
    assert !out.reclaimArmed && out.escapeTravel == 0 && out.peerX == 0;
    assert [push][..0] == [] && Travel(c.layout, [push]) == Travel(c.layout, []) + Delta(c.layout, push);
    PushReclaimsIff(out, x, y, I32_MIN, 0);
  }

  /** Two 100-pixel displays: a crossing at the right edge, and the push that is lost. */
  lemma {:induction false} HugePushExample(ackTicks: nat)
    ensures var c := NewSource(1, 2, Layout(100, 100, 100, 100, Right), ackTicks);
            var es := [Local(CursorMoved(99, 0, 5, 0)), Local(CursorMoved(50, 0, I32_MIN, 0))];
            Inv(c) && Travel(c.layout, es[1..]) >= EscapeThreshold(c.layout) && !After(c, es).Owns()
  {
    var c := NewSource(1, 2, Layout(100, 100, 100, 100, Right), ackTicks);
    var (cross, push) := (Local(CursorMoved(99, 0, 5, 0)), Local(CursorMoved(50, 0, I32_MIN, 0)));
    var es := [cross, push];
    FreshInv(1, 2, c.layout, ackTicks);
    assert es[..1] == [cross] && es[1..] == [push] && [cross][..0] == [];
    assert After(c, [cross]) == Apply(After(c, []), cross).0;
    assert After(c, es) == Apply(After(c, [cross]), push).0;
    HugePushIsLost(c, cross, 50, 0);
  }

  lemma {:induction false} DriveAccumulates(c: Core, e: Event)
    requires Inv(c) && !c.Owns() && !Apply(c, e).0.Owns() && ModerateEvent(c.layout, e)
    ensures Apply(c, e).0.escapeTravel == Max(c.escapeTravel + Delta(c.layout, e), 0)
  {
    if e.Local? && e.local.CursorMoved? {
      TravelExactIff(c, e.local.dx, e.local.dy);
      assert Apply(c, e).0.escapeTravel == Travelled(c, e.local.dx, e.local.dy);
    }
  }

  /** While the peer owns input after a crossing, escape travel is the largest home-ward suffix since then. */
  lemma {:induction false} EscapeIsLargestSuffix(c: Core, es: seq<Event>)
    requires Inv(c) && !c.Owns() && c.escapeTravel == 0 && Moderate(c.layout, es)
    requires forall k :: 0 <= k <= |es| ==> !At(c, es, k).Owns()
    ensures LargestSuffix(c.layout, es, After(c, es).escapeTravel)
  {
    assert es[..|es|] == es;
    if es == [] {
      assert Travel(c.layout, es[0..]) == 0;
    } else {
      var init := es[..|es| - 1];
      forall k | 0 <= k <= |init| ensures At(c, init, k) == At(c, es, k) { assert init[..k] == es[..k]; }
      EscapeIsLargestSuffix(c, init);
      RunKeeps(c, init);
      assert At(c, es, |es| - 1) == After(c, init) && At(c, es, |es|) == After(c, es);
      DriveAccumulates(After(c, init), es[|es| - 1]);
      SuffixGrows(c.layout, es, After(c, init).escapeTravel);
    }
  }

  /** So a contiguous block of events that travels the threshold home-ward has reclaimed by its end. */
  lemma {:induction false} BlockReclaims(c: Core, es: seq<Event>, from: nat)
    requires Inv(c) && !c.Owns() && c.escapeTravel == 0 && Moderate(c.layout, es)
    requires from <= |es| && Travel(c.layout, es[from..]) >= EscapeThreshold(c.layout)
    ensures exists k :: 0 <= k <= |es| && At(c, es, k).Owns()
  {
    RunKeeps(c, es);
    assert es[..|es|] == es && At(c, es, |es|) == After(c, es);
    if forall k :: 0 <= k <= |es| ==> !At(c, es, k).Owns() { EscapeIsLargestSuffix(c, es); }
  }

  // ---- Continuity -----------------------------------------------------------------------------------------

  /** Crossing at (x, y) and returning with the off-axis peer position unchanged lands on the same local
      off-axis coordinate, whenever the peer's off axis is at least as long. */
  lemma {:induction false} CrossingIsContinuous(c: Core, x: int, y: int, back: Core)
    requires Inv(c) && c.Owns() && back.layout == c.layout
    requires 0 <= x < c.layout.width && 0 <= y < c.layout.height
    ensures var out := CrossToPeer(c, x, y).0;
            var l := c.layout;
            && ((l.edge == Left || l.edge == Right) && 2 <= l.height <= l.peerHeight && back.peerY == out.peerY ==>
                  ReturnPoint(back).1 == y)
            && ((l.edge == Top || l.edge == Bottom) && 2 <= l.width <= l.peerWidth && back.peerX == out.peerX ==>
                  ReturnPoint(back).0 == x)
  {
    var l := c.layout;
    if 2 <= l.height <= l.peerHeight { MapAxisRoundTrip(y, l.height, l.peerHeight); }
    if 2 <= l.width <= l.peerWidth { MapAxisRoundTrip(x, l.width, l.peerWidth); }
  }
}
