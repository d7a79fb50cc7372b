/** Whole runs of the source: local input, ticks and lost suppression, with no incoming messages. */
module EngineRuns {
  import opened Common
  import opened AxisMap
  import opened Ownership
  import opened EngineCore

  datatype Event = Local(local: LocalEvent) | Tick | SuppressUnavailable

  function Apply(c: Core, e: Event): (Core, seq<Action>) {
    match e
    case Local(l) => OnLocalInput(c, l)
    case Tick => OnTick(c)
    case SuppressUnavailable => OnSuppressUnavailable(c)
  }

  function After(c: Core, es: seq<Event>): Core {
    if es == [] then c else Apply(After(c, es[..|es| - 1]), es[|es| - 1]).0
  }

  /** All actions of the run, in order. */
  function Log(c: Core, es: seq<Event>): seq<Action> {
    if es == [] then []
    else Log(c, es[..|es| - 1]) + Apply(After(c, es[..|es| - 1]), es[|es| - 1]).1
  }

  /** The state before event `k` of the run. */
  function At(c: Core, es: seq<Event>, k: nat): Core
    requires k <= |es|
  {
    After(c, es[..k])
  }

  lemma {:induction false} Extend(c: Core, es: seq<Event>, k: nat)
    requires k < |es|
    ensures At(c, es, k + 1) == Apply(At(c, es, k), es[k]).0
  {
    assert es[..k + 1][..k] == es[..k];
  }

  // ---- What every run keeps -------------------------------------------------------------

  predicate OnPeer(l: Layout, x: int, y: int) { 0 <= x <= AxisMax(l.peerWidth) && 0 <= y <= AxisMax(l.peerHeight) }

  /** The peer cursor is on the peer display, a grant is pending only while the peer owns, and while
      forwarding the escape travel is below its threshold. */
  predicate Inv(c: Core) {
    && c.Valid() && OnPeer(c.layout, c.peerX, c.peerY)
    && c.outCtr <= U64_MAX && c.outSeq <= U32_MAX && c.misses <= U32_MAX
    && 0 <= c.escapeTravel
    && (c.pending.Some? ==> !c.Owns())
    && (!c.Owns() ==> c.own.owner == c.peer && c.escapeTravel < EscapeThreshold(c.layout))
  }

  lemma {:induction false} FreshInv(me: DeviceId, peer: DeviceId, layout: Layout, ackTicks: nat)
    requires me != peer && layout.Valid()
    ensures Inv(NewSource(me, peer, layout, ackTicks))
  {
  }

  // ---- Numbering ---------------------------------------------------------------------------

  predicate LexLe(e: nat, n: nat, e': nat, n': nat) { e < e' || (e == e' && n <= n') }
  predicate LexLess(e: nat, n: nat, e': nat, n': nat) { e < e' || (e == e' && n < n') }

  predicate Numbered(a: Action) { a.SendInput? || a.SendMotion? }

  /** Below saturation, the state's counters bound the action. */
  predicate Bounds(c: Core, a: Action) {
    c.own.epoch < U64_MAX ==>
      && (a.SendInput? ==> LexLe(a.epoch, a.ctr, c.own.epoch, c.outCtr))
      && (a.SendMotion? ==> LexLe(a.epoch, a.seqNo, c.own.epoch, c.outSeq))
  }

  /** `b` is numbered above `a`, unless it carries a saturated epoch or counter. */
  predicate Ordered(a: Action, b: Action) {
    && (a.SendInput? && b.SendInput? && b.epoch < U64_MAX && b.ctr < U64_MAX ==>
          LexLess(a.epoch, a.ctr, b.epoch, b.ctr))
    && (a.SendMotion? && b.SendMotion? && b.epoch < U64_MAX && b.seqNo < U32_MAX ==>
          LexLess(a.epoch, a.seqNo, b.epoch, b.seqNo))
  }

  /** The step sends at most one numbered message, first, above all the counters bounded, and is bounded after. */
  ghost predicate Numbers(c: Core, c': Core, acts: seq<Action>) {
    && (forall a :: Bounds(c, a) ==> Bounds(c', a))
    && (forall k :: 0 < k < |acts| ==> !Numbered(acts[k]))
    && (acts != [] && Numbered(acts[0]) ==>
          && Bounds(c', acts[0]) && (forall a :: Bounds(c, a) ==> Ordered(a, acts[0]))
          && (acts[0].SendMotion? ==> OnPeer(c.layout, acts[0].x, acts[0].y)))
  }

  // ---- Capture agreement ---------------------------------------------------------------------

  function LastMode(acts: seq<Action>): Option<CaptureMode> {
    if acts == [] then None
    else if acts[|acts| - 1].SetCaptureMode? then Some(acts[|acts| - 1].mode)
    else LastMode(acts[..|acts| - 1])
  }

  function LastVisible(acts: seq<Action>): Option<bool> {
    if acts == [] then None
    else if acts[|acts| - 1].SetCursorVisible? then Some(acts[|acts| - 1].visible)
    else LastVisible(acts[..|acts| - 1])
  }

  lemma {:induction false} LastOfConcat(a: seq<Action>, b: seq<Action>)
    ensures LastMode(a + b) == if LastMode(b).Some? then LastMode(b) else LastMode(a)
    ensures LastVisible(a + b) == if LastVisible(b).Some? then LastVisible(b) else LastVisible(a)
  {
    if b == [] {
      assert a + b == a;
    } else {
      assert (a + b)[..|a + b| - 1] == a + b[..|b| - 1];
      LastOfConcat(a, b[..|b| - 1]);
    }
  }

  predicate Quiet(acts: seq<Action>) {
    forall k :: 0 <= k < |acts| ==> !acts[k].SetCaptureMode? && !acts[k].SetCursorVisible?
  }

  lemma {:induction false} QuietHasNoLast(a: seq<Action>)
    requires Quiet(a)
    ensures LastMode(a).None? && LastVisible(a).None?
  {
    if a != [] { QuietHasNoLast(a[..|a| - 1]); }
  }

  /** The step's last mode and visibility, if it sets them, and all its capture decisions fit the new owner. */
  predicate Agrees(c: Core, c': Core, acts: seq<Action>) {
    && (LastMode(acts) == Some(c'.Mode()) || (LastMode(acts).None? && c'.Mode() == c.Mode()))
    && (LastVisible(acts) == Some(c'.Owns()) || (LastVisible(acts).None? && c'.Owns() == c.Owns()))
    && (forall k :: 0 <= k < |acts| && acts[k].Capture? ==> (acts[k].decision == PassThrough <==> c'.Owns()))
  }

  lemma {:induction false} LastOfFive(a: seq<Action>)
    requires |a| == 5 && a[0].SetCaptureMode? && a[2].SetCursorVisible?
    requires Quiet(a[1..2]) && Quiet(a[3..])
    ensures LastMode(a) == Some(a[0].mode) && LastVisible(a) == Some(a[2].visible)
  {
    assert a == [a[0]] + (a[1..2] + ([a[2]] + a[3..]));
    QuietHasNoLast(a[1..2]);
    QuietHasNoLast(a[3..]);
    LastOfConcat([a[2]], a[3..]);
    LastOfConcat(a[1..2], [a[2]] + a[3..]);
    LastOfConcat([a[0]], a[1..2] + ([a[2]] + a[3..]));
    assert LastMode([a[2]]).None? by { assert [a[2]][..0] == []; }
    assert LastVisible([a[0]]).None? by { assert [a[0]][..0] == []; }
  }

  // ---- One step --------------------------------------------------------------------------------

  ghost predicate Good(c: Core, c': Core, acts: seq<Action>) {
    && Inv(c') && c'.layout == c.layout && c'.own.me == c.own.me && c'.peer == c.peer
    && Numbers(c, c', acts) && Agrees(c, c', acts)
  }

  lemma {:induction false} QuietGood(c: Core, c': Core, acts: seq<Action>)
    requires Inv(c) && Inv(c') && c'.layout == c.layout && c'.own == c.own && c'.peer == c.peer
    requires Quiet(acts) && Numbers(c, c', acts)
    requires forall k :: 0 <= k < |acts| && acts[k].Capture? ==> (acts[k].decision == PassThrough <==> c.Owns())
    ensures Good(c, c', acts)
  {
    QuietHasNoLast(acts);
  }

  lemma {:induction false} EntryOnPeer(l: Layout, x: int, y: int)
    ensures OnPeer(l, EntryPoint(l, x, y).0, EntryPoint(l, x, y).1)
  {
    if l.edge.Left? || l.edge.Right? {
      MapAxisInRange(y, l.height, l.peerHeight);
    } else {
      MapAxisInRange(x, l.width, l.peerWidth);
    }
  }

  lemma {:induction false} CrossAgrees(c: Core, x: int, y: int)
    requires Inv(c) && c.Owns()
    ensures Agrees(c, CrossToPeer(c, x, y).0, CrossToPeer(c, x, y).1)
  {
    LastOfFive(CrossToPeer(c, x, y).1);
  }

  lemma {:induction false} CrossGood(c: Core, x: int, y: int)
    requires Inv(c) && c.Owns()
    ensures Good(c, CrossToPeer(c, x, y).0, CrossToPeer(c, x, y).1)
  {
    EntryOnPeer(c.layout, x, y);
    CrossAgrees(c, x, y);
  }

  /** A reclaim from any state that differs only in fields a reclaim does not read. */
  lemma {:induction false} ReclaimGood(c: Core, d: Core, pre: seq<Action>, post: seq<Action>)
    requires Inv(c) && d.own == c.own && d.layout == c.layout && d.peer == c.peer
    requires OnPeer(d.layout, d.peerX, d.peerY) && d.escapeTravel >= 0 && d.misses <= U32_MAX
    requires Quiet(pre) && Quiet(post) && |pre| <= 1
    requires forall k :: 0 <= k < |pre| ==> !Numbered(pre[k]) && !pre[k].Capture?
    requires forall k :: 0 <= k < |post| ==> !Numbered(post[k]) && !post[k].Capture?
    ensures Good(c, ReclaimLocal(d).0, pre + ReclaimLocal(d).1 + post)
  {
    var (r, mid) := ReclaimLocal(d);
    LastOfFive(mid);
    QuietHasNoLast(pre);
    QuietHasNoLast(post);
    LastOfConcat(pre, mid);
    LastOfConcat(pre + mid, post);
    var acts := pre + mid + post;
    assert forall k :: 0 <= k < |acts| ==> !Numbered(acts[k]);
  }

  lemma {:induction false} PeerCursorGood(c: Core, x: int, y: int, dx: int, dy: int)
    requires Inv(c) && !c.Owns()
    ensures Good(c, OnPeerCursor(c, x, y, dx, dy).0, OnPeerCursor(c, x, y, dx, dy).1)
  {
    var t := Travelled(c, dx, dy);
    if EscapesBack(c.layout, x, y, dx, dy) {
      ReclaimGood(c, c, [], []);
      assert [] + ReclaimLocal(c).1 + [] == ReclaimLocal(c).1;
    } else if t >= EscapeThreshold(c.layout) {
      var d := c.(escapeTravel := t);
      ReclaimGood(c, d, [], []);
      assert [] + ReclaimLocal(d).1 + [] == ReclaimLocal(d).1;
    } else {
      var d := Driven(c, dx, dy);
      if d.reclaimArmed && CrossesBack(d, dx, dy) {
        var warp := WarpCursor(ReturnPoint(d).0, ReturnPoint(d).1);
        ReclaimGood(c, d, [], [warp]);
        assert [] + ReclaimLocal(d).1 + [warp] == ReclaimLocal(d).1 + [warp];
      } else {
        var (c', acts) := OnPeerCursor(c, x, y, dx, dy);
        QuietGood(c, c', acts);
      }
    }
  }

  lemma {:induction false} TickGood(c: Core)
    requires Inv(c)
    ensures Good(c, OnTick(c).0, OnTick(c).1)
  {
    var hb := SatAdd64(c.hbSeq, 1);
    var beat := c.(hbSeq := hb);
    if c.pending.Some? && c.pending.value.ticksLeft == 0 {
      ReclaimGood(c, beat, [SendHeartbeat(hb)], []);
      assert [SendHeartbeat(hb)] + ReclaimLocal(beat).1 + [] == OnTick(c).1;
    } else {
      var waited := beat.(
        pending := if c.pending.Some? then Some(c.pending.value.(ticksLeft := c.pending.value.ticksLeft - 1)) else None,
        misses := Min(c.misses + 1, U32_MAX));
      if !waited.Owns() && waited.misses >= HEARTBEAT_MISS_LIMIT {
        ReclaimGood(c, waited, [SendHeartbeat(hb)], []);
        assert [SendHeartbeat(hb)] + ReclaimLocal(waited).1 + [] == OnTick(c).1;
      } else {
        QuietGood(c, waited, [SendHeartbeat(hb)]);
      }
    }
  }

  lemma {:induction false} ApplyGood(c: Core, e: Event)
    requires Inv(c)
    ensures Good(c, Apply(c, e).0, Apply(c, e).1)
  {
    match e {
      case Tick => TickGood(c);
      case SuppressUnavailable =>
        var d := c.(suppressBlocked := true);
        if c.Owns() {
          QuietGood(c, d, []);
        } else {
          ReclaimGood(c, d, [], []);
          assert [] + ReclaimLocal(d).1 + [] == ReclaimLocal(d).1;
        }
      case Local(Pressed(_)) => QuietGood(c, Apply(c, e).0, Apply(c, e).1);
      case Local(CursorMoved(x, y, dx, dy)) =>
        if !c.Owns() {
          PeerCursorGood(c, x, y, dx, dy);
        } else if c.crossOutArmed && !c.suppressBlocked && CrossesOut(c.layout, x, y, dx, dy) {
          CrossGood(c, x, y);
        } else {
          QuietGood(c, Apply(c, e).0, Apply(c, e).1);
        }
    }
  }

  // ---- Whole runs --------------------------------------------------------------------------------

  lemma {:induction false} RunKeeps(c: Core, es: seq<Event>)
    requires Inv(c)
    ensures Inv(After(c, es))
    ensures After(c, es).layout == c.layout && After(c, es).own.me == c.own.me && After(c, es).peer == c.peer
  {
    if es != [] {
      RunKeeps(c, es[..|es| - 1]);
      ApplyGood(After(c, es[..|es| - 1]), es[|es| - 1]);
    }
  }

  /** Across a whole run, (epoch, ctr) and (epoch, seq) of what is sent strictly increase until saturation,
      and every motion is on the peer display. */
  lemma {:induction false} SentInOrder(c: Core, es: seq<Event>)
    requires Inv(c)
    ensures forall k :: 0 <= k < |Log(c, es)| ==> Bounds(After(c, es), Log(c, es)[k])
    ensures forall j, k :: 0 <= j < k < |Log(c, es)| ==> Ordered(Log(c, es)[j], Log(c, es)[k])
    ensures forall a :: a in Log(c, es) && a.SendMotion? ==> OnPeer(c.layout, a.x, a.y)
  {
    if es != [] {
      var init, last := es[..|es| - 1], es[|es| - 1];
      SentInOrder(c, init);
      RunKeeps(c, init);
      ApplyGood(After(c, init), last);
      LogGrows(After(c, init), After(c, es), Log(c, init), Apply(After(c, init), last).1);
    }
  }

  lemma {:induction false} LogGrows(c: Core, c': Core, log: seq<Action>, acts: seq<Action>)
    requires Good(c, c', acts)
    requires forall k :: 0 <= k < |log| ==> Bounds(c, log[k])
    requires forall j, k :: 0 <= j < k < |log| ==> Ordered(log[j], log[k])
    ensures forall k :: 0 <= k < |log + acts| ==> Bounds(c', (log + acts)[k])
    ensures forall j, k :: 0 <= j < k < |log + acts| ==> Ordered((log + acts)[j], (log + acts)[k])
  {
    var all := log + acts;
    forall j, k | 0 <= j < k < |all| ensures Ordered(all[j], all[k]) {
      if k < |log| { assert Ordered(log[j], log[k]); }
      else if j < |log| { assert Bounds(c, log[j]); }
    }
  }

  lemma {:induction false} InitialAgrees(c: Core)
    requires Inv(c)
    ensures LastMode(InitialActions(c)) == Some(c.Mode()) && LastVisible(InitialActions(c)) == Some(c.Owns())
  {
    var a := InitialActions(c);
    assert a[..1] == [a[0]];
  }

  /** The last event of a run, seen from outside. */
  lemma {:induction false} LastStep(c: Core, es: seq<Event>) returns (acts: seq<Action>)
    requires Inv(c) && es != []
    ensures Log(c, es) == Log(c, es[..|es| - 1]) + acts && Agrees(After(c, es[..|es| - 1]), After(c, es), acts)
  {
    RunKeeps(c, es[..|es| - 1]);
    ApplyGood(After(c, es[..|es| - 1]), es[|es| - 1]);
    acts := Apply(After(c, es[..|es| - 1]), es[|es| - 1]).1;
  }

  /** Appending a step's actions leaves the last settings those of the new owner. */
  lemma {:induction false} AgreesAppend(c: Core, c': Core, a: seq<Action>, log: seq<Action>, acts: seq<Action>)
    requires Agrees(c, c', acts) && LastMode(a + log) == Some(c.Mode()) && LastVisible(a + log) == Some(c.Owns())
    ensures LastMode(a + (log + acts)) == Some(c'.Mode()) && LastVisible(a + (log + acts)) == Some(c'.Owns())
  {
    assert a + (log + acts) == (a + log) + acts;
    LastOfConcat(a + log, acts);
  }

  /** After every run the runtime's capture mode and cursor visibility are those of the current owner. */
  lemma {:induction false} CaptureAgrees(c: Core, es: seq<Event>)
    requires Inv(c)
    ensures LastMode(InitialActions(c) + Log(c, es)) == Some(After(c, es).Mode())
    ensures LastVisible(InitialActions(c) + Log(c, es)) == Some(After(c, es).Owns())
  {
    if es == [] {
      InitialAgrees(c);
      assert InitialActions(c) + Log(c, es) == InitialActions(c);
    } else {
      var init := es[..|es| - 1];
      CaptureAgrees(c, init);
      var acts := LastStep(c, es);
      AgreesAppend(After(c, init), After(c, es), InitialActions(c), Log(c, init), acts);
    }
  }
}
