/** The source side of the engine: edge crossing, forwarding, reclaiming. */
module EngineCore {
  import opened Common
  import opened AxisMap
  import opened Ownership

  const HEARTBEAT_MISS_LIMIT: nat := 3
  const EDGE_REARM_MARGIN: int := 8
  const ESCAPE_MIN_TRAVEL: int := 64

  datatype Edge = Left | Right | Top | Bottom

  datatype Layout = Layout(width: int, height: int, peerWidth: int, peerHeight: int, edge: Edge)
  {
    predicate Valid() { InI32(width) && InI32(height) && InI32(peerWidth) && InI32(peerHeight) }
  }

  datatype CaptureMode = PassiveEdge | ActiveForward
  datatype Decision = PassThrough | Suppress

  /** Forwarded input other than motion. */
  datatype Input =
    | Key(usage: nat, down: bool, mods: nat)
    | Button(button: nat, down: bool)
    | Scroll(dx: int, dy: int)

  datatype LocalEvent =
    | CursorMoved(x: int, y: int, dx: int, dy: int)
    | Pressed(input: Input)

  /** What the runtime must do; control payloads are kept as values instead of CBOR bytes. */
  datatype Action =
    | SendTransfer(to: DeviceId, epoch: nat, reason: TransferReason)
    | SendInput(input: Input, epoch: nat, ctr: nat)
    | SendHeartbeat(hb: nat)
    | SendMotion(epoch: nat, seqNo: nat, x: int, y: int)
    | WarpCursor(x: int, y: int)
    | Capture(decision: Decision)
    | SetCaptureMode(mode: CaptureMode)
    | OwnerChanged(owner: DeviceId, epoch: nat)
    | SetCursorVisible(visible: bool)

  datatype Pending = Pending(epoch: nat, ticksLeft: nat)

  /** `ackTicks` is the number of ticks a grant waits for its ack. */
  datatype Core = Core(peer: DeviceId, own: View, layout: Layout, ackTicks: nat,
                       outCtr: nat, outSeq: nat, pending: Option<Pending>, peerX: int, peerY: int,
                       reclaimArmed: bool, crossOutArmed: bool, misses: nat, hbSeq: nat,
                       suppressBlocked: bool, escapeTravel: int)
  {
    predicate Owns() { own.IsOwner() }
    function Mode(): CaptureMode { if Owns() then PassiveEdge else ActiveForward }
    predicate Valid() { peer != own.me && layout.Valid() && own.Valid() }
  }

  function NewSource(me: DeviceId, peer: DeviceId, layout: Layout, ackTicks: nat): Core {
    Core(peer, Boot(me), layout, ackTicks, 0, 0, None, 0, 0, true, true, 0, 0, false, 0)
  }

  function InitialActions(c: Core): seq<Action> { [SetCursorVisible(c.Owns()), SetCaptureMode(c.Mode())] }

  // ---- Edge predicates ---------------------------------------------------------------

  predicate CrossesOut(l: Layout, x: int, y: int, dx: int, dy: int) {
    match l.edge
    case Right => x >= SatSub32(AxisMax(l.width), EDGE_REARM_MARGIN) && SatAdd32(x, dx) >= AxisMax(l.width)
    case Left => x <= EDGE_REARM_MARGIN && SatAdd32(x, dx) <= 0
    case Bottom => y >= SatSub32(AxisMax(l.height), EDGE_REARM_MARGIN) && SatAdd32(y, dy) >= AxisMax(l.height)
    case Top => y <= EDGE_REARM_MARGIN && SatAdd32(y, dy) <= 0
  }

  /** Strictly inside the re-arm margin of the shared edge. */
  predicate LeftCrossEdge(l: Layout, x: int, y: int) {
    match l.edge
    case Right => x < SatSub32(AxisMax(l.width), EDGE_REARM_MARGIN)
    case Left => x > EDGE_REARM_MARGIN
    case Bottom => y < SatSub32(AxisMax(l.height), EDGE_REARM_MARGIN)
    case Top => y > EDGE_REARM_MARGIN
  }

  predicate EscapesBack(l: Layout, x: int, y: int, dx: int, dy: int) {
    match l.edge
    case Right => x <= EDGE_REARM_MARGIN && dx < 0
    case Left => x >= SatSub32(AxisMax(l.width), EDGE_REARM_MARGIN) && dx > 0
    case Bottom => y <= EDGE_REARM_MARGIN && dy < 0
    case Top => y >= SatSub32(AxisMax(l.height), EDGE_REARM_MARGIN) && dy > 0
  }

  predicate CrossesBack(c: Core, dx: int, dy: int) {
    match c.layout.edge
    case Right => c.peerX <= 0 && dx < 0
    case Left => c.peerX >= SatSub32(c.layout.peerWidth, 1) && dx > 0
    case Bottom => c.peerY <= 0 && dy < 0
    case Top => c.peerY >= SatSub32(c.layout.peerHeight, 1) && dy > 0
  }

  predicate PeerLeftEntryEdge(c: Core) {
    match c.layout.edge
    case Right => c.peerX > 0
    case Left => c.peerX < AxisMax(c.layout.peerWidth)
    case Bottom => c.peerY > 0
    case Top => c.peerY < AxisMax(c.layout.peerHeight)
  }

  /** The home-ward component of a device delta, as an i32. */
  function Homeward(l: Layout, dx: int, dy: int): int {
    match l.edge
    case Left => dx
    case Right => Wrap32(-dx)
    case Bottom => Wrap32(-dy)
    case Top => dy
  }

  function EscapeThreshold(l: Layout): int {
    match l.edge
    case Left => Max(l.width, ESCAPE_MIN_TRAVEL)
    case Right => Max(l.width, ESCAPE_MIN_TRAVEL)
    case Top => Max(l.height, ESCAPE_MIN_TRAVEL)
    case Bottom => Max(l.height, ESCAPE_MIN_TRAVEL)
  }

  // ---- Transitions ---------------------------------------------------------------------

  /** Where the peer cursor enters: on the shared edge, at the same fraction of the other axis. */
  function EntryPoint(l: Layout, x: int, y: int): (int, int) {
    match l.edge
    case Right => (0, MapAxis(y, l.height, l.peerHeight))
    case Left => (AxisMax(l.peerWidth), MapAxis(y, l.height, l.peerHeight))
    case Bottom => (MapAxis(x, l.width, l.peerWidth), 0)
    case Top => (MapAxis(x, l.width, l.peerWidth), AxisMax(l.peerHeight))
  }

  /** Where the local cursor re-enters: on the shared edge, at the peer cursor's fraction. */
  function ReturnPoint(c: Core): (int, int) {
    var l := c.layout;
    match l.edge
    case Left => (0, MapAxis(c.peerY, l.peerHeight, l.height))
    case Right => (AxisMax(l.width), MapAxis(c.peerY, l.peerHeight, l.height))
    case Top => (MapAxis(c.peerX, l.peerWidth, l.width), 0)
    case Bottom => (MapAxis(c.peerX, l.peerWidth, l.width), AxisMax(l.height))
  }

  function CrossToPeer(c: Core, x: int, y: int): (Core, seq<Action>) {
    var (own, minted) := Granted(c.own, c.peer);
    if minted.None? then (c, [Capture(PassThrough)])
    else
      var (px, py) := EntryPoint(c.layout, x, y);
      (c.(own := own, outCtr := 0, outSeq := 0, pending := Some(Pending(minted.value, c.ackTicks)),
          peerX := px, peerY := py, reclaimArmed := false, escapeTravel := 0),
       [SetCaptureMode(ActiveForward), SendTransfer(c.peer, minted.value, EdgeCross), SetCursorVisible(false),
        OwnerChanged(c.peer, minted.value), Capture(Suppress)])
  }

  function ReclaimLocal(c: Core): (Core, seq<Action>) {
    var (own, epoch) := Reclaimed(c.own);
    (c.(own := own, outCtr := 0, outSeq := 0, pending := None, reclaimArmed := true, crossOutArmed := false),
     [SetCaptureMode(PassiveEdge), SendTransfer(c.own.me, epoch, LocalReclaim), SetCursorVisible(true),
      OwnerChanged(c.own.me, epoch), Capture(PassThrough)])
  }

  /** The cursor moved on our own screen. */
  function OnLocalCursor(c: Core, x: int, y: int, dx: int, dy: int): (Core, seq<Action>) {
    if !c.crossOutArmed && LeftCrossEdge(c.layout, x, y) then
      (c.(crossOutArmed := true), [Capture(PassThrough)])
    else if c.crossOutArmed && !c.suppressBlocked && CrossesOut(c.layout, x, y, dx, dy) then CrossToPeer(c, x, y)
    else (c, [Capture(PassThrough)])
  }

  function Travelled(c: Core, dx: int, dy: int): int {
    Max(Wrap32(c.escapeTravel + Homeward(c.layout, dx, dy)), 0)
  }

  /** The peer cursor after the device moved by (dx, dy), with the back-cross armed once it left its entry edge. */
  function Driven(c: Core, dx: int, dy: int): Core {
    var moved := c.(escapeTravel := Travelled(c, dx, dy),
                    peerX := Clamp(SatAdd32(c.peerX, dx), 0, AxisMax(c.layout.peerWidth)),
                    peerY := Clamp(SatAdd32(c.peerY, dy), 0, AxisMax(c.layout.peerHeight)));
    moved.(reclaimArmed := c.reclaimArmed || PeerLeftEntryEdge(moved))
  }

  /** The device moved while the peer owns input. */
  function OnPeerCursor(c: Core, x: int, y: int, dx: int, dy: int): (Core, seq<Action>) {
    if EscapesBack(c.layout, x, y, dx, dy) then ReclaimLocal(c)
    else if Travelled(c, dx, dy) >= EscapeThreshold(c.layout) then
      ReclaimLocal(c.(escapeTravel := Travelled(c, dx, dy)))
    else
      var d := Driven(c, dx, dy);
      if d.reclaimArmed && CrossesBack(d, dx, dy) then
        var (r, acts) := ReclaimLocal(d);
        (r, acts + [WarpCursor(ReturnPoint(d).0, ReturnPoint(d).1)])
      else
        var n := Min(d.outSeq + 1, U32_MAX);
        (d.(outSeq := n), [SendMotion(d.own.epoch, n, d.peerX, d.peerY), Capture(Suppress)])
  }

  function OnLocalInput(c: Core, e: LocalEvent): (Core, seq<Action>) {
    match e
    case CursorMoved(x, y, dx, dy) =>
      if c.Owns() then OnLocalCursor(c, x, y, dx, dy) else OnPeerCursor(c, x, y, dx, dy)
    case Pressed(input) =>
      if c.Owns() then (c, [Capture(PassThrough)])
      else
        var ctr := SatAdd64(c.outCtr, 1);
        (c.(outCtr := ctr), [SendInput(input, c.own.epoch, ctr), Capture(Suppress)])
  }

  function OnSuppressUnavailable(c: Core): (Core, seq<Action>) {
    var blocked := c.(suppressBlocked := true);
    if c.Owns() then (blocked, []) else ReclaimLocal(blocked)
  }

  function OnTick(c: Core): (Core, seq<Action>) {
    var hb := SatAdd64(c.hbSeq, 1);
    var beat := c.(hbSeq := hb);
    if c.pending.Some? && c.pending.value.ticksLeft == 0 then
      var (r, acts) := ReclaimLocal(beat);
      (r, [SendHeartbeat(hb)] + acts)
    else
      var waited := beat.(
        pending := if c.pending.Some? then Some(c.pending.value.(ticksLeft := c.pending.value.ticksLeft - 1)) else None,
        misses := Min(c.misses + 1, U32_MAX));
      if !waited.Owns() && waited.misses >= HEARTBEAT_MISS_LIMIT then
        var (r, acts) := ReclaimLocal(waited);
        (r, [SendHeartbeat(hb)] + acts)
      else (waited, [SendHeartbeat(hb)])
  }

  // ---- The machine -----------------------------------------------------------------------

  class Engine {
    const peer: DeviceId
    const layout: Layout
    const ackTicks: nat
    var own: View
    var outCtr: nat
    var outSeq: nat
    var pending: Option<Pending>
    var peerX: int
    var peerY: int
    var reclaimArmed: bool
    var crossOutArmed: bool
    var misses: nat
    var hbSeq: nat
    var suppressBlocked: bool
    var escapeTravel: int

    function Now(): Core
      reads this
    {
      Core(peer, own, layout, ackTicks, outCtr, outSeq, pending, peerX, peerY, reclaimArmed, crossOutArmed,
           misses, hbSeq, suppressBlocked, escapeTravel)
    }

    constructor (me: DeviceId, peer: DeviceId, layout: Layout, ackTicks: nat)
      ensures Now() == NewSource(me, peer, layout, ackTicks)
    {
      this.peer, this.layout, this.ackTicks, own := peer, layout, ackTicks, Boot(me);
      outCtr, outSeq, pending, peerX, peerY := 0, 0, None, 0, 0;
      reclaimArmed, crossOutArmed, misses, hbSeq, suppressBlocked, escapeTravel := true, true, 0, 0, false, 0;
    }

    method ResetOut()
      modifies this`outCtr, this`outSeq
      ensures outCtr == 0 && outSeq == 0
    {
      outCtr, outSeq := 0, 0;
    }

    method Cross(x: int, y: int) returns (acts: seq<Action>)
      modifies this
      ensures (Now(), acts) == CrossToPeer(old(Now()), x, y)
    {
      var (v, minted) := Granted(own, peer);
      if minted.None? { return [Capture(PassThrough)]; }
      own := v;
      ResetOut();
      pending := Some(Pending(minted.value, ackTicks));
      var (px, py) := EntryPoint(layout, x, y);
      peerX, peerY := px, py;
      reclaimArmed := false;
      escapeTravel := 0;
      acts := [SetCaptureMode(ActiveForward), SendTransfer(peer, minted.value, EdgeCross), SetCursorVisible(false),
               OwnerChanged(peer, minted.value), Capture(Suppress)];
    }

    method Reclaim() returns (acts: seq<Action>)
      modifies this
      ensures (Now(), acts) == ReclaimLocal(old(Now()))
    {
      var (v, epoch) := Reclaimed(own);
      own := v;
      ResetOut();
      pending, reclaimArmed, crossOutArmed := None, true, false;
      acts := [SetCaptureMode(PassiveEdge), SendTransfer(own.me, epoch, LocalReclaim), SetCursorVisible(true),
               OwnerChanged(own.me, epoch), Capture(PassThrough)];
    }

    method Cursor(x: int, y: int, dx: int, dy: int) returns (acts: seq<Action>)
      modifies this
      ensures (Now(), acts) == OnLocalInput(old(Now()), CursorMoved(x, y, dx, dy))
    {
      if own.IsOwner() {
        var wasArmed := crossOutArmed;
        if !wasArmed && LeftCrossEdge(layout, x, y) {
          crossOutArmed := true;
          return [Capture(PassThrough)];
        }
        if wasArmed && !suppressBlocked && CrossesOut(layout, x, y, dx, dy) {
          acts := Cross(x, y);
          return;
        }
        return [Capture(PassThrough)];
      }
      acts := Drive(x, y, dx, dy);
    }

    method Drive(x: int, y: int, dx: int, dy: int) returns (acts: seq<Action>)
      modifies this
      ensures (Now(), acts) == OnPeerCursor(old(Now()), x, y, dx, dy)
    {
      if EscapesBack(layout, x, y, dx, dy) {
        acts := Reclaim();
        return;
      }
      escapeTravel := Max(Wrap32(escapeTravel + Homeward(layout, dx, dy)), 0);
      if escapeTravel >= EscapeThreshold(layout) {
        acts := Reclaim();
        return;
      }
      peerX := Clamp(SatAdd32(peerX, dx), 0, AxisMax(layout.peerWidth));
      peerY := Clamp(SatAdd32(peerY, dy), 0, AxisMax(layout.peerHeight));
      if !reclaimArmed && PeerLeftEntryEdge(Now()) { reclaimArmed := true; }
      assert Now() == Driven(old(Now()), dx, dy);
      if reclaimArmed && CrossesBack(Now(), dx, dy) {
        var (x', y') := ReturnPoint(Now());
        acts := Reclaim();
        acts := acts + [WarpCursor(x', y')];
        return;
      }
      outSeq := Min(outSeq + 1, U32_MAX);
      acts := [SendMotion(own.epoch, outSeq, peerX, peerY), Capture(Suppress)];
    }

    method LocalInput(e: LocalEvent) returns (acts: seq<Action>)
      modifies this
      ensures (Now(), acts) == OnLocalInput(old(Now()), e)
    {
      match e {
        case CursorMoved(x, y, dx, dy) => acts := Cursor(x, y, dx, dy);
        case Pressed(input) =>
          if own.IsOwner() { return [Capture(PassThrough)]; }
          outCtr := SatAdd64(outCtr, 1);
          acts := [SendInput(input, own.epoch, outCtr), Capture(Suppress)];
      }
    }

    method SuppressUnavailable() returns (acts: seq<Action>)
      modifies this
      ensures (Now(), acts) == OnSuppressUnavailable(old(Now()))
    {
      suppressBlocked := true;
      if own.IsOwner() { return []; }
      acts := Reclaim();
    }

    method Tick() returns (acts: seq<Action>)
      modifies this
      ensures (Now(), acts) == OnTick(old(Now()))
    {
      hbSeq := SatAdd64(hbSeq, 1);
      acts := [SendHeartbeat(hbSeq)];
      if pending.Some? {
        if pending.value.ticksLeft == 0 {
          var more := Reclaim();
          acts := acts + more;
          return;
        }
        pending := Some(pending.value.(ticksLeft := pending.value.ticksLeft - 1));
      }
      misses := Min(misses + 1, U32_MAX);
      if !own.IsOwner() && misses >= HEARTBEAT_MISS_LIMIT {
        var more := Reclaim();
        acts := acts + more;
      }
    }
  }
}
