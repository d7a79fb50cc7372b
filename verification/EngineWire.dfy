/** What the source puts on the wire over a run, and what the peer makes of it. */
module EngineWire {
  import opened Common
  import opened AxisMap
  import opened Ownership
  import opened EngineCore
  import opened EngineRuns
  import opened EngineReturn
  import opened EngineEdges

  predicate IsMove(e: Event) { e.Local? && e.local.CursorMoved? }

  // ---- Motions follow the peer cursor -------------------------------------------------------------

  /** Every motion names the position the peer cursor has after its event, under the current epoch. */
  lemma {:induction false} MotionIsCursor(c: Core, e: Event, k: nat)
    requires Inv(c) && k < |Apply(c, e).1| && Apply(c, e).1[k].SendMotion?
    ensures var (c', m) := (Apply(c, e).0, Apply(c, e).1[k]);
            IsMove(e) && !c.Owns() && m.x == c'.peerX && m.y == c'.peerY && m.epoch == c.own.epoch
  {
    if IsMove(e) && !c.Owns() { DriveSends(c, e.local.x, e.local.y, e.local.dx, e.local.dy, k); }
  }

  lemma {:induction false} DriveSends(c: Core, x: int, y: int, dx: int, dy: int, k: nat)
    requires k < |OnPeerCursor(c, x, y, dx, dy).1| && OnPeerCursor(c, x, y, dx, dy).1[k].SendMotion?
    ensures var (c', acts) := OnPeerCursor(c, x, y, dx, dy);
            acts[k].x == c'.peerX && acts[k].y == c'.peerY && acts[k].epoch == c.own.epoch
  {
  }

  /** A device motion that does not come home is answered by one motion to the moved and clamped position. */
  lemma {:induction false} MoveIsForwarded(c: Core, x: int, y: int, dx: int, dy: int)
    requires Inv(c) && !c.Owns() && !Apply(c, Local(CursorMoved(x, y, dx, dy))).0.Owns()
    ensures var (c', acts) := Apply(c, Local(CursorMoved(x, y, dx, dy)));
            && (c'.peerX, c'.peerY) == Moved(c, dx, dy)
            && acts == [SendMotion(c.own.epoch, c'.outSeq, c'.peerX, c'.peerY), Capture(Suppress)]
  {
    DrivenIsMoved(c, dx, dy);
  }

  /** A cursor that takes one event, kept on the display. */
  function Stepped(l: Layout, p: (int, int), e: Event): (int, int) {
    if IsMove(e)
    then (Between(p.0 + e.local.dx, LastPixel(l.peerWidth)), Between(p.1 + e.local.dy, LastPixel(l.peerHeight)))
    else p
  }

  /** Where a cursor ends that starts at `p` and takes every device motion of `es`, each step kept on the display. */
  function Walked(l: Layout, p: (int, int), es: seq<Event>): (int, int) {
    if es == [] then p else Stepped(l, Walked(l, p, es[..|es| - 1]), es[|es| - 1])
  }

  lemma {:induction false} WalkAlong(l: Layout, ps: seq<(int, int)>, es: seq<Event>, i: nat, j: nat)
    requires |ps| == |es| + 1 && i <= j <= |es| && forall k :: i <= k < j ==> ps[k + 1] == Stepped(l, ps[k], es[k])
    ensures ps[j] == Walked(l, ps[i], es[i..j])
  {
    if i < j {
      WalkAlong(l, ps, es, i, j - 1);
      assert es[i..j][..j - 1 - i] == es[i..j - 1];
    }
  }

  function Cursor(c: Core): (int, int) { (c.peerX, c.peerY) }

  lemma {:induction false} CursorSteps(c: Core, e: Event)
    requires Inv(c) && !c.Owns() && !Apply(c, e).0.Owns()
    ensures Cursor(Apply(c, e).0) == Stepped(c.layout, Cursor(c), e)
  {
    if IsMove(e) { MoveIsForwarded(c, e.local.x, e.local.y, e.local.dx, e.local.dy); } else { StillCursor(c, e); }
  }

  lemma {:induction false} StillCursor(c: Core, e: Event)
    requires !c.Owns() && !Apply(c, e).0.Owns() && !IsMove(e)
    ensures Cursor(Apply(c, e).0) == Cursor(c)
  {
  }

  lemma {:induction false} CrossSeeds(c: Core, e: Event)
    requires Inv(c) && c.Owns() && !Apply(c, e).0.Owns()
    ensures IsMove(e) && Cursor(Apply(c, e).0) == EntryPoint(c.layout, e.local.x, e.local.y)
  {
  }

  /** One step between states that satisfy the run invariant. */
  predicate Steps(c: Core, e: Event, c': Core) {
    Inv(c) && Inv(c') && c'.layout == c.layout && c' == Apply(c, e).0
  }

  /** The states of a run: `cs[k]` is the one before event `k`. */
  predicate Trace(es: seq<Event>, cs: seq<Core>) {
    |cs| == |es| + 1 && forall k :: 0 <= k < |es| ==> Stepping(es, cs, k)
  }

  predicate Stepping(es: seq<Event>, cs: seq<Core>, k: nat)
    requires k < |es| && |cs| == |es| + 1
  {
    Steps(cs[k], es[k], cs[k + 1])
  }

  /** Every run has its trace. */
  lemma {:induction false} TraceOf(c: Core, es: seq<Event>) returns (cs: seq<Core>)
    requires Inv(c)
    ensures Trace(es, cs) && cs[0] == c && forall k :: 0 <= k <= |es| ==> cs[k] == At(c, es, k)
  {
    cs := seq(|es| + 1, k requires 0 <= k <= |es| => At(c, es, k));
    assert es[..0] == [];
    forall k | 0 <= k < |es| ensures Stepping(es, cs, k) {
      StepAt(c, es, k);
      ApplyGood(At(c, es, k), es[k]);
    }
  }

  /** The peer owns input from state `i` to state `j`. */
  predicate Away(cs: seq<Core>, i: nat, j: nat) { j < |cs| && forall k :: i <= k <= j ==> !cs[k].Owns() }

  lemma {:induction false} LayoutStays(es: seq<Event>, cs: seq<Core>, k: nat)
    requires Trace(es, cs) && k < |cs|
    ensures cs[k].layout == cs[0].layout
  {
    if k > 0 {
      LayoutStays(es, cs, k - 1);
      assert Stepping(es, cs, k - 1);
    }
  }

  lemma {:induction false} CursorStepsAt(es: seq<Event>, cs: seq<Core>, k: nat)
    requires Trace(es, cs) && k < |es| && Away(cs, k, k + 1)
    ensures Cursor(cs[k + 1]) == Stepped(cs[0].layout, Cursor(cs[k]), es[k])
  {
    LayoutStays(es, cs, k);
    assert Stepping(es, cs, k);
    CursorSteps(cs[k], es[k]);
  }

  lemma {:induction false} CrossSeedsAt(es: seq<Event>, cs: seq<Core>, i: nat)
    requires Trace(es, cs) && i < |es| && cs[i].Owns() && !cs[i + 1].Owns()
    ensures IsMove(es[i]) && Cursor(cs[i + 1]) == EntryPoint(cs[0].layout, es[i].local.x, es[i].local.y)
  {
    LayoutStays(es, cs, i);
    assert Stepping(es, cs, i);
    CrossSeeds(cs[i], es[i]);
  }

  /** From a crossing on, the peer cursor is the entry point walked by every motion since. */
  lemma {:induction false} CursorFollows(es: seq<Event>, cs: seq<Core>, i: nat, j: nat)
    requires Trace(es, cs) && i < j <= |es| && cs[i].Owns() && Away(cs, i + 1, j)
    ensures IsMove(es[i])
    ensures Cursor(cs[j]) ==
            Walked(cs[0].layout, EntryPoint(cs[0].layout, es[i].local.x, es[i].local.y), es[i + 1..j])
  {
    CrossSeedsAt(es, cs, i);
    var ps := seq(|cs|, k requires 0 <= k < |cs| => Cursor(cs[k]));
    forall k | i + 1 <= k < j ensures ps[k + 1] == Stepped(cs[0].layout, ps[k], es[k]) { CursorStepsAt(es, cs, k); }
    WalkAlong(cs[0].layout, ps, es, i + 1, j);
  }

  /** The event is swallowed and answered by one motion to `p`, under the current epoch. */
  predicate SendsTo(c: Core, e: Event, p: (int, int)) {
    Apply(c, e).1 == [SendMotion(c.own.epoch, Apply(c, e).0.outSeq, p.0, p.1), Capture(Suppress)]
  }

  lemma {:induction false} ForwardedAt(es: seq<Event>, cs: seq<Core>, j: nat)
    requires Trace(es, cs) && j < |es| && IsMove(es[j]) && Away(cs, j, j + 1)
    ensures SendsTo(cs[j], es[j], Cursor(cs[j + 1]))
  {
    assert Stepping(es, cs, j);
    var e := es[j].local;
    MoveIsForwarded(cs[j], e.x, e.y, e.dx, e.dy);
  }

  /** So each motion sent after a crossing goes to the entry point plus all deltas since, each step clamped into
      the peer display. */
  lemma {:induction false} MotionsFollow(es: seq<Event>, cs: seq<Core>, i: nat, j: nat)
    requires Trace(es, cs) && i < j < |es| && cs[i].Owns() && Away(cs, i + 1, j + 1) && IsMove(es[j])
    ensures IsMove(es[i])
    ensures SendsTo(cs[j], es[j],
                    Walked(cs[0].layout, EntryPoint(cs[0].layout, es[i].local.x, es[i].local.y), es[i + 1..j + 1]))
  {
    CursorFollows(es, cs, i, j + 1);
    ForwardedAt(es, cs, j);
  }

  // ---- Transfers keep the peer in step ----------------------------------------------------------------

  function Transfers(acts: seq<Action>): seq<Action> {
    if acts == [] then []
    else Transfers(acts[..|acts| - 1]) + (if acts[|acts| - 1].SendTransfer? then [acts[|acts| - 1]] else [])
  }

  lemma {:induction false} TransfersConcat(a: seq<Action>, b: seq<Action>)
    ensures Transfers(a + b) == Transfers(a) + Transfers(b)
  {
    if b == [] {
      assert a + b == a;
    } else {
      assert (a + b)[..|a + b| - 1] == a + b[..|b| - 1];
      TransfersConcat(a, b[..|b| - 1]);
    }
  }

  lemma {:induction false} NoTransfers(a: seq<Action>)
    requires forall k :: 0 <= k < |a| ==> !a[k].SendTransfer?
    ensures Transfers(a) == []
  {
    if a != [] { NoTransfers(a[..|a| - 1]); }
  }

  /** The one transfer among five actions is the second. */
  lemma {:induction false} TransferOfFive(pre: seq<Action>, a: seq<Action>, post: seq<Action>)
    requires |a| == 5 && a[1].SendTransfer?
    requires forall k :: 0 <= k < 5 && k != 1 ==> !a[k].SendTransfer?
    requires forall k :: 0 <= k < |pre| ==> !pre[k].SendTransfer?
    requires forall k :: 0 <= k < |post| ==> !post[k].SendTransfer?
    ensures Transfers(pre + a + post) == [a[1]]
  {
    assert pre + a + post == (pre + a[..1]) + ([a[1]] + (a[2..] + post));
    NoTransfers(pre + a[..1]);
    NoTransfers(a[2..] + post);
    TransfersConcat(pre + a[..1], [a[1]] + (a[2..] + post));
    TransfersConcat([a[1]], a[2..] + post);
    assert [a[1]][..0] == [];
    assert Transfers([a[1]]) == [a[1]];
  }

  predicate Announces(acts: seq<Action>, v: View) {
    exists k :: 0 <= k < |acts| && acts[k] == OwnerChanged(v.owner, v.epoch)
  }

  /** A change of owner is announced once: to the peer as a transfer that names the new owner and epoch, as a reclaim
      exactly if we take it back, and to the runtime. Without a change nothing is announced. */
  predicate WellAnnounced(c: Core, c': Core, acts: seq<Action>) {
    if c'.Owns() == c.Owns() then Transfers(acts) == [] && c'.own == c.own
    else
      && Announces(acts, c'.own)
      && exists reason :: Transfers(acts) == [SendTransfer(c'.own.owner, c'.own.epoch, reason)]
                          && (reason == LocalReclaim <==> c'.Owns()) && c'.own.epoch == SatAdd64(c.own.epoch, 1)
  }

  lemma {:induction false} ReclaimAnnounces(c: Core, d: Core, pre: seq<Action>, post: seq<Action>)
    requires !c.Owns() && d.own == c.own
    requires forall k :: 0 <= k < |pre| ==> !pre[k].SendTransfer?
    requires forall k :: 0 <= k < |post| ==> !post[k].SendTransfer?
    ensures WellAnnounced(c, ReclaimLocal(d).0, pre + ReclaimLocal(d).1 + post)
  {
    var (r, mid) := ReclaimLocal(d);
    TransferOfFive(pre, mid, post);
    var acts := pre + mid + post;
    assert acts[|pre| + 3] == mid[3] == OwnerChanged(r.own.owner, r.own.epoch);
    assert Transfers(acts) == [SendTransfer(r.own.owner, r.own.epoch, LocalReclaim)];
  }

  lemma {:induction false} CrossAnnounces(c: Core, x: int, y: int)
    requires Inv(c) && c.Owns()
    ensures WellAnnounced(c, CrossToPeer(c, x, y).0, CrossToPeer(c, x, y).1)
  {
    var (c', acts) := CrossToPeer(c, x, y);
    TransferOfFive([], acts, []);
    assert [] + acts + [] == acts;
    assert acts[3] == OwnerChanged(c'.own.owner, c'.own.epoch);
    assert Transfers(acts) == [SendTransfer(c'.own.owner, c'.own.epoch, EdgeCross)];
  }

  lemma {:induction false} PeerCursorAnnounces(c: Core, x: int, y: int, dx: int, dy: int)
    requires Inv(c) && !c.Owns()
    ensures WellAnnounced(c, OnPeerCursor(c, x, y, dx, dy).0, OnPeerCursor(c, x, y, dx, dy).1)
  {
    var d := Driven(c, dx, dy);
    if EscapesBack(c.layout, x, y, dx, dy) {
      ReclaimAnnounces(c, c, [], []);
      assert [] + ReclaimLocal(c).1 + [] == ReclaimLocal(c).1;
    } else if Travelled(c, dx, dy) >= EscapeThreshold(c.layout) {
      var t := c.(escapeTravel := Travelled(c, dx, dy));
      ReclaimAnnounces(c, t, [], []);
      assert [] + ReclaimLocal(t).1 + [] == ReclaimLocal(t).1;
    } else if d.reclaimArmed && CrossesBack(d, dx, dy) {
      var warp := WarpCursor(ReturnPoint(d).0, ReturnPoint(d).1);
      ReclaimAnnounces(c, d, [], [warp]);
      assert [] + ReclaimLocal(d).1 + [warp] == ReclaimLocal(d).1 + [warp];
    } else {
      NoTransfers(OnPeerCursor(c, x, y, dx, dy).1);
    }
  }

  lemma {:induction false} TickAnnounces(c: Core)
    requires Inv(c)
    ensures WellAnnounced(c, OnTick(c).0, OnTick(c).1)
  {
    var hb := SatAdd64(c.hbSeq, 1);
    var beat := c.(hbSeq := hb);
    var waited := beat.(
      pending := if c.pending.Some? && c.pending.value.ticksLeft > 0
                 then Some(c.pending.value.(ticksLeft := c.pending.value.ticksLeft - 1)) else None,
      misses := Min(c.misses + 1, U32_MAX));
    var d := if c.pending.Some? && c.pending.value.ticksLeft == 0 then beat else waited;
    if OnTick(c).0.Owns() && !c.Owns() {
      ReclaimAnnounces(c, d, [SendHeartbeat(hb)], []);
      assert [SendHeartbeat(hb)] + ReclaimLocal(d).1 + [] == OnTick(c).1;
    } else {
      NoTransfers(OnTick(c).1);
    }
  }

  lemma {:induction false} StepAnnounces(c: Core, e: Event)
    requires Inv(c)
    ensures WellAnnounced(c, Apply(c, e).0, Apply(c, e).1)
  {
    match e {
      case Tick => TickAnnounces(c);
      case SuppressUnavailable =>
        if c.Owns() {
          NoTransfers([]);
        } else {
          var d := c.(suppressBlocked := true);
          ReclaimAnnounces(c, d, [], []);
          assert [] + ReclaimLocal(d).1 + [] == ReclaimLocal(d).1;
        }
      case Local(Pressed(_)) => NoTransfers(Apply(c, e).1);
      case Local(CursorMoved(x, y, dx, dy)) =>
        if !c.Owns() {
          PeerCursorAnnounces(c, x, y, dx, dy);
        } else if !Apply(c, e).0.Owns() {
          CrossAnnounces(c, x, y);
        } else {
          NoTransfers(Apply(c, e).1);
        }
    }
  }

  /** A view after the peer received these transfers in order. */
  function Told(v: View, ts: seq<Action>): View
    requires forall k :: 0 <= k < |ts| ==> ts[k].SendTransfer?
  {
    if ts == [] then v
    else
      var t := ts[|ts| - 1];
      Observed(Told(v, ts[..|ts| - 1]), t.to, t.epoch, t.reason == LocalReclaim).0
  }

  lemma {:induction false} TransfersAre(acts: seq<Action>)
    ensures forall k :: 0 <= k < |Transfers(acts)| ==> Transfers(acts)[k].SendTransfer?
  {
    if acts != [] { TransfersAre(acts[..|acts| - 1]); }
  }

  /** The peer's view agrees with the source's: same owner and epoch, the peer active exactly if it owns, a reclaim
      exactly if the source took input back. */
  predicate InStep(v: View, c: Core) {
    && v.me == c.peer && v.owner == c.own.owner && v.epoch == c.own.epoch
    && (v.focus == Active <==> v.IsOwner()) && (v.focus == Standby <==> !v.IsOwner())
    && (v.reclaimOrigin <==> c.Owns())
  }

  lemma {:induction false} TransferLands(v: View, c: Core, c': Core, acts: seq<Action>)
    requires Inv(c) && Inv(c') && c'.peer == c.peer && c'.own.me == c.own.me && WellAnnounced(c, c', acts)
    requires v.me == c.peer && v.epoch <= c.own.epoch && c'.own.epoch < U64_MAX && c'.Owns() != c.Owns()
    ensures |Transfers(acts)| == 1 && Transfers(acts)[0].SendTransfer?
    ensures var t := Transfers(acts)[0]; InStep(Observed(v, t.to, t.epoch, t.reason == LocalReclaim).0, c')
  {
  }

  /** The last step of a run, as what it announced. */
  lemma {:induction false} LastAnnounced(c: Core, es: seq<Event>) returns (acts: seq<Action>)
    requires Inv(c) && es != []
    ensures Log(c, es) == Log(c, es[..|es| - 1]) + acts
    ensures var (a, b) := (After(c, es[..|es| - 1]), After(c, es));
            && Inv(a) && Inv(b) && a.peer == b.peer == c.peer && a.own.me == b.own.me
            && WellAnnounced(a, b, acts) && a.own.epoch <= b.own.epoch
  {
    var init := es[..|es| - 1];
    RunKeeps(c, init);
    RunKeeps(c, es);
    StepAnnounces(After(c, init), es[|es| - 1]);
    acts := Apply(After(c, init), es[|es| - 1]).1;
    EpochGrows(After(c, init), After(c, es), acts);
  }

  lemma {:induction false} ToldMore(v: View, log: seq<Action>, acts: seq<Action>, a: Core, b: Core, own: View)
    requires Inv(a) && Inv(b) && a.peer == b.peer && a.own.me == b.own.me && WellAnnounced(a, b, acts)
    requires forall k :: 0 <= k < |Transfers(log)| ==> Transfers(log)[k].SendTransfer?
    requires forall k :: 0 <= k < |Transfers(log + acts)| ==> Transfers(log + acts)[k].SendTransfer?
    requires v.me == a.peer && v.epoch <= a.own.epoch && b.own.epoch < U64_MAX
    requires if Transfers(log) == [] then a.own == own else InStep(Told(v, Transfers(log)), a)
    ensures if Transfers(log + acts) == [] then b.own == own else InStep(Told(v, Transfers(log + acts)), b)
  {
    TransfersConcat(log, acts);
    var ts, ts' := Transfers(log), Transfers(log + acts);
    if a.Owns() == b.Owns() {
      assert ts' == ts;
    } else {
      TransferLands(Told(v, ts), a, b, acts);
      assert ts' == ts + [Transfers(acts)[0]] && ts'[..|ts'| - 1] == ts;
    }
  }

  /** Delivered in order to a peer that is not ahead, the transfers of any run leave the peer in step with the
      source, from the first hand-over on. */
  lemma {:induction false} PeerStaysInStep(c: Core, es: seq<Event>, v: View)
    requires Inv(c) && v.me == c.peer && v.epoch <= c.own.epoch && After(c, es).own.epoch < U64_MAX
    ensures c.own.epoch <= After(c, es).own.epoch
    ensures forall k :: 0 <= k < |Transfers(Log(c, es))| ==> Transfers(Log(c, es))[k].SendTransfer?
    ensures if Transfers(Log(c, es)) == [] then After(c, es).own == c.own
            else InStep(Told(v, Transfers(Log(c, es))), After(c, es))
  {
    TransfersAre(Log(c, es));
    if es != [] {
      var acts := LastAnnounced(c, es);
      PeerStaysInStep(c, es[..|es| - 1], v);
      ToldMore(v, Log(c, es[..|es| - 1]), acts, After(c, es[..|es| - 1]), After(c, es), c.own);
    }
  }

  lemma {:induction false} EpochGrows(c: Core, c': Core, acts: seq<Action>)
    requires Inv(c) && WellAnnounced(c, c', acts)
    ensures c.own.epoch <= c'.own.epoch
  {
  }

  // ---- Everything typed is forwarded --------------------------------------------------------------------

  /** The inputs sent, in order. */
  function Sent(acts: seq<Action>): seq<Input> {
    if acts == [] then []
    else Sent(acts[..|acts| - 1]) + (if acts[|acts| - 1].SendInput? then [acts[|acts| - 1].input] else [])
  }

  lemma {:induction false} SentConcat(a: seq<Action>, b: seq<Action>)
    ensures Sent(a + b) == Sent(a) + Sent(b)
  {
    if b == [] {
      assert a + b == a;
    } else {
      assert (a + b)[..|a + b| - 1] == a + b[..|b| - 1];
      SentConcat(a, b[..|b| - 1]);
    }
  }

  lemma {:induction false} NoneSent(a: seq<Action>)
    requires forall k :: 0 <= k < |a| ==> !a[k].SendInput?
    ensures Sent(a) == []
  {
    if a != [] { NoneSent(a[..|a| - 1]); }
  }

  /** Keys, buttons and scrolls of the run that came while the peer owned input. */
  function Typed(c: Core, es: seq<Event>): seq<Input> {
    if es == [] then []
    else
      var e := es[|es| - 1];
      Typed(c, es[..|es| - 1]) +
      (if e.Local? && e.local.Pressed? && !After(c, es[..|es| - 1]).Owns() then [e.local.input] else [])
  }

  lemma {:induction false} StepForwards(c: Core, e: Event)
    ensures Sent(Apply(c, e).1) == if e.Local? && e.local.Pressed? && !c.Owns() then [e.local.input] else []
  {
    var acts := Apply(c, e).1;
    if e.Local? && e.local.Pressed? && !c.Owns() {
      assert acts[..1] == [acts[0]] && [acts[0]][..0] == [];
      assert Sent([acts[0]]) == [e.local.input] && Sent(acts) == Sent(acts[..1]);
    } else {
      NoneSent(acts);
    }
  }

  /** What is sent is exactly what was typed while the peer owned input, in order. */
  lemma {:induction false} ForwardsExactly(c: Core, es: seq<Event>)
    ensures Sent(Log(c, es)) == Typed(c, es)
  {
    if es != [] {
      var init := es[..|es| - 1];
      ForwardsExactly(c, init);
      StepForwards(After(c, init), es[|es| - 1]);
      SentConcat(Log(c, init), Apply(After(c, init), es[|es| - 1]).1);
    }
  }

  /** How many of the events are key, button or scroll input, and how many are motions. */
  function Presses(es: seq<Event>): nat {
    if es == [] then 0
    else Presses(es[..|es| - 1]) + (if es[|es| - 1].Local? && es[|es| - 1].local.Pressed? then 1 else 0)
  }
  function Moves(es: seq<Event>): nat {
    if es == [] then 0 else Moves(es[..|es| - 1]) + (if IsMove(es[|es| - 1]) then 1 else 0)
  }

  function Counters(c: Core): (nat, nat) { (c.outCtr, c.outSeq) }

  predicate Counts(n: (nat, nat), e: Event, n': (nat, nat)) {
    && n'.0 == Min(n.0 + Presses([e]), U64_MAX)
    && n'.1 == Min(n.1 + Moves([e]), U32_MAX)
  }

  lemma {:induction false} One(e: Event)
    ensures Presses([e]) == if e.Local? && e.local.Pressed? then 1 else 0
    ensures Moves([e]) == if IsMove(e) then 1 else 0
  {
    assert [e][..0] == [];
  }

  lemma {:induction false} DriveCounts(c: Core, x: int, y: int, dx: int, dy: int)
    requires !c.Owns() && !OnPeerCursor(c, x, y, dx, dy).0.Owns()
    ensures Counters(OnPeerCursor(c, x, y, dx, dy).0) == (c.outCtr, Min(c.outSeq + 1, U32_MAX))
  {
  }

  lemma {:induction false} CountersStep(c: Core, e: Event)
    requires Inv(c) && !c.Owns() && !Apply(c, e).0.Owns()
    ensures Counts(Counters(c), e, Counters(Apply(c, e).0))
  {
    One(e);
    if IsMove(e) { DriveCounts(c, e.local.x, e.local.y, e.local.dx, e.local.dy); }
  }

  lemma {:induction false} CountAlong(ns: seq<(nat, nat)>, es: seq<Event>, i: nat, j: nat)
    requires |ns| == |es| + 1 && i <= j <= |es| && ns[i] == (0, 0)
    requires forall k :: i <= k < j ==> Counts(ns[k], es[k], ns[k + 1])
    ensures ns[j] == (Min(Presses(es[i..j]), U64_MAX), Min(Moves(es[i..j]), U32_MAX))
  {
    if i < j {
      CountAlong(ns, es, i, j - 1);
      assert Counts(ns[j - 1], es[j - 1], ns[j]);
      One(es[j - 1]);
      assert es[i..j][..j - 1 - i] == es[i..j - 1];
    }
  }

  lemma {:induction false} CountersStepAt(es: seq<Event>, cs: seq<Core>, k: nat)
    requires Trace(es, cs) && k < |es| && Away(cs, k, k + 1)
    ensures Counts(Counters(cs[k]), es[k], Counters(cs[k + 1]))
  {
    assert Stepping(es, cs, k);
    CountersStep(cs[k], es[k]);
  }

  lemma {:induction false} CrossResets(es: seq<Event>, cs: seq<Core>, i: nat)
    requires Trace(es, cs) && i < |es| && cs[i].Owns() && !cs[i + 1].Owns()
    ensures Counters(cs[i + 1]) == (0, 0)
  {
    assert Stepping(es, cs, i);
  }

  /** After each crossing messages are numbered from one again: the counters are the inputs and motions since. */
  lemma {:induction false} NumberedFromOne(es: seq<Event>, cs: seq<Core>, i: nat, j: nat)
    requires Trace(es, cs) && i < j <= |es| && cs[i].Owns() && Away(cs, i + 1, j)
    ensures cs[j].outCtr == Min(Presses(es[i + 1..j]), U64_MAX)
    ensures cs[j].outSeq == Min(Moves(es[i + 1..j]), U32_MAX)
  {
    CrossResets(es, cs, i);
    var ns := seq(|cs|, k requires 0 <= k < |cs| => Counters(cs[k]));
    forall k | i + 1 <= k < j ensures Counts(ns[k], es[k], ns[k + 1]) { CountersStepAt(es, cs, k); }
    CountAlong(ns, es, i + 1, j);
    assert ns[j] == Counters(cs[j]);
  }

  /** Input while the peer owns is sent under the current epoch with the counter it moves to. */
  lemma {:induction false} PressIsForwarded(c: Core, input: Input)
    requires !c.Owns()
    ensures var (c', acts) := Apply(c, Local(Pressed(input)));
            acts == [SendInput(input, c.own.epoch, c'.outCtr), Capture(Suppress)] && !c'.Owns()
  {
  }

  /** Every local event gets exactly one decision: pass it through if we own input afterwards, else swallow it. */
  lemma {:induction false} OneDecision(c: Core, l: LocalEvent)
    requires Inv(c)
    ensures DecidesOnce(Apply(c, Local(l)).0, Apply(c, Local(l)).1)
  {
    if l.CursorMoved? && !c.Owns() {
      DriveDecides(c, l.x, l.y, l.dx, l.dy);
    } else {
      var (c', acts) := Apply(c, Local(l));
      assert acts[|acts| - 1] == Capture(if c'.Owns() then PassThrough else Suppress);
    }
  }

  predicate DecidesOnce(c': Core, acts: seq<Action>) {
    exists k :: 0 <= k < |acts| && acts[k] == Capture(if c'.Owns() then PassThrough else Suppress)
      && forall j :: 0 <= j < |acts| && j != k ==> !acts[j].Capture?
  }

  lemma {:induction false} DriveDecides(c: Core, x: int, y: int, dx: int, dy: int)
    requires !c.Owns()
    ensures DecidesOnce(OnPeerCursor(c, x, y, dx, dy).0, OnPeerCursor(c, x, y, dx, dy).1)
  {
    var (c', acts) := OnPeerCursor(c, x, y, dx, dy);
    var k := if |acts| >= 5 then 4 else |acts| - 1;
    assert acts[k] == Capture(if c'.Owns() then PassThrough else Suppress);
  }

  // ---- Ticks ----------------------------------------------------------------------------------------------

  function Ticks(es: seq<Event>): nat {
    if es == [] then 0 else Ticks(es[..|es| - 1]) + (if es[|es| - 1].Tick? then 1 else 0)
  }

  /** While the peer owns input, a tick takes it back exactly when the grant has waited out or it is the third miss. */
  lemma {:induction false} TickReclaimsIff(c: Core)
    requires Inv(c) && !c.Owns()
    ensures OnTick(c).0.Owns() <==> (c.pending.Some? && c.pending.value.ticksLeft == 0) || c.misses >= 2
  {
  }

  /** Who owns input, and the grant that waits for its ack. */
  function Grant(c: Core): (View, Option<Pending>) { (c.own, c.pending) }

  /** One event in the life of a grant: only a tick counts down. */
  predicate Passes(g: (View, Option<Pending>), e: Event, g': (View, Option<Pending>)) {
    && g'.0 == g.0
    && (g.1.Some? ==>
          && g'.1.Some? && g'.1.value.epoch == g.1.value.epoch
          && g'.1.value.ticksLeft + (if e.Tick? then 1 else 0) == g.1.value.ticksLeft)
  }

  lemma {:induction false} DriveKeepsGrant(c: Core, x: int, y: int, dx: int, dy: int)
    requires !c.Owns() && !OnPeerCursor(c, x, y, dx, dy).0.Owns()
    ensures Grant(OnPeerCursor(c, x, y, dx, dy).0) == Grant(c)
  {
  }

  lemma {:induction false} GrantSteps(c: Core, e: Event)
    requires Inv(c) && !c.Owns() && !Apply(c, e).0.Owns()
    ensures Passes(Grant(c), e, Grant(Apply(c, e).0))
  {
    if IsMove(e) { DriveKeepsGrant(c, e.local.x, e.local.y, e.local.dx, e.local.dy); }
  }

  lemma {:induction false} CrossWaits(c: Core, e: Event)
    requires Inv(c) && c.Owns() && !Apply(c, e).0.Owns()
    ensures Apply(c, e).0.pending == Some(Pending(Apply(c, e).0.own.epoch, c.ackTicks))
  {
  }

  lemma {:induction false} GrantAlong(gs: seq<(View, Option<Pending>)>, es: seq<Event>, i: nat, j: nat)
    requires |gs| == |es| + 1 && i <= j <= |es| && gs[i].1.Some?
    requires forall k :: i <= k < j ==> Passes(gs[k], es[k], gs[k + 1])
    ensures gs[j].0 == gs[i].0 && gs[j].1.Some? && gs[j].1.value.epoch == gs[i].1.value.epoch
    ensures gs[j].1.value.ticksLeft + Ticks(es[i..j]) == gs[i].1.value.ticksLeft
  {
    if i < j {
      GrantAlong(gs, es, i, j - 1);
      assert Passes(gs[j - 1], es[j - 1], gs[j]);
      assert es[i..j][..j - 1 - i] == es[i..j - 1];
    }
  }

  lemma {:induction false} GrantStepsAt(es: seq<Event>, cs: seq<Core>, k: nat)
    requires Trace(es, cs) && k < |es| && Away(cs, k, k + 1)
    ensures Passes(Grant(cs[k]), es[k], Grant(cs[k + 1]))
  {
    assert Stepping(es, cs, k);
    GrantSteps(cs[k], es[k]);
  }

  lemma {:induction false} WaitsFromCrossing(es: seq<Event>, cs: seq<Core>, i: nat)
    requires Trace(es, cs) && i < |es| && cs[i].Owns() && !cs[i + 1].Owns()
    ensures cs[i + 1].pending == Some(Pending(cs[i + 1].own.epoch, cs[i].ackTicks))
  {
    assert Stepping(es, cs, i);
    CrossWaits(cs[i], es[i]);
  }

  /** A grant that no ack answers waits for it by its own epoch, and at most its allotted ticks pass before the source
      takes input back. */
  lemma {:induction false} GrantWaits(es: seq<Event>, cs: seq<Core>, i: nat, j: nat)
    requires Trace(es, cs) && i < j <= |es| && cs[i].Owns() && Away(cs, i + 1, j)
    ensures Ticks(es[i + 1..j]) <= cs[i].ackTicks && cs[j].own == cs[i + 1].own
    ensures cs[j].pending == Some(Pending(cs[j].own.epoch, cs[i].ackTicks - Ticks(es[i + 1..j])))
  {
    WaitsFromCrossing(es, cs, i);
    var gs := seq(|cs|, k requires 0 <= k < |cs| => Grant(cs[k]));
    forall k | i + 1 <= k < j ensures Passes(gs[k], es[k], gs[k + 1]) { GrantStepsAt(es, cs, k); }
    GrantAlong(gs, es, i + 1, j);
    assert gs[j] == Grant(cs[j]) && gs[i + 1] == Grant(cs[i + 1]);
  }

  function Beats(acts: seq<Action>): seq<nat> {
    if acts == [] then []
    else Beats(acts[..|acts| - 1]) + (if acts[|acts| - 1].SendHeartbeat? then [acts[|acts| - 1].hb] else [])
  }

  lemma {:induction false} BeatsConcat(a: seq<Action>, b: seq<Action>)
    ensures Beats(a + b) == Beats(a) + Beats(b)
  {
    if b == [] {
      assert a + b == a;
    } else {
      assert (a + b)[..|a + b| - 1] == a + b[..|b| - 1];
      BeatsConcat(a, b[..|b| - 1]);
    }
  }

  lemma {:induction false} NoBeats(a: seq<Action>)
    requires forall k :: 0 <= k < |a| ==> !a[k].SendHeartbeat?
    ensures Beats(a) == []
  {
    if a != [] { NoBeats(a[..|a| - 1]); }
  }

  lemma {:induction false} TickBeats(c: Core)
    ensures OnTick(c).0.hbSeq == SatAdd64(c.hbSeq, 1) && Beats(OnTick(c).1) == [SatAdd64(c.hbSeq, 1)]
  {
    var acts := OnTick(c).1;
    var head, rest := [acts[0]], acts[1..];
    assert acts == head + rest;
    NoBeats(rest);
    BeatsConcat(head, rest);
    assert head[..0] == [] && Beats(head) == [SatAdd64(c.hbSeq, 1)];
  }

  lemma {:induction false} DriveBeats(c: Core, x: int, y: int, dx: int, dy: int)
    ensures OnPeerCursor(c, x, y, dx, dy).0.hbSeq == c.hbSeq && Beats(OnPeerCursor(c, x, y, dx, dy).1) == []
  {
    NoBeats(OnPeerCursor(c, x, y, dx, dy).1);
  }

  lemma {:induction false} LocalBeats(c: Core, l: LocalEvent)
    ensures OnLocalInput(c, l).0.hbSeq == c.hbSeq && Beats(OnLocalInput(c, l).1) == []
  {
    if l.CursorMoved? && !c.Owns() {
      DriveBeats(c, l.x, l.y, l.dx, l.dy);
    } else {
      NoBeats(OnLocalInput(c, l).1);
    }
  }

  lemma {:induction false} StepBeats(c: Core, e: Event)
    ensures var (c', acts) := Apply(c, e);
            if e.Tick? then c'.hbSeq == SatAdd64(c.hbSeq, 1) && Beats(acts) == [c'.hbSeq]
            else c'.hbSeq == c.hbSeq && Beats(acts) == []
  {
    match e {
      case Tick => TickBeats(c);
      case SuppressUnavailable => NoBeats(Apply(c, e).1);
      case Local(l) => LocalBeats(c, l);
    }
  }

  /** Each tick sends one heartbeat, numbered one above the last, whoever owns input. */
  lemma {:induction false} HeartbeatsCount(c: Core, es: seq<Event>)
    requires c.hbSeq <= U64_MAX
    ensures After(c, es).hbSeq == SatAdd64(c.hbSeq, Ticks(es))
    ensures |Beats(Log(c, es))| == Ticks(es)
    ensures forall k :: 0 <= k < Ticks(es) ==> Beats(Log(c, es))[k] == SatAdd64(c.hbSeq, k + 1)
  {
    if es != [] {
      var init := es[..|es| - 1];
      HeartbeatsCount(c, init);
      StepBeats(After(c, init), es[|es| - 1]);
      BeatsConcat(Log(c, init), Apply(After(c, init), es[|es| - 1]).1);
    }
  }

  // ---- Lost suppression ---------------------------------------------------------------------------------------

  lemma {:induction false} BlockedStays(c: Core, e: Event)
    requires c.suppressBlocked && c.Owns()
    ensures Apply(c, e).0.suppressBlocked && Apply(c, e).0.Owns()
  {
  }

  /** Once suppression is unavailable the source owns input and never hands it over again. */
  lemma {:induction false} BlockedNeverCrosses(c: Core, es: seq<Event>, i: nat, j: nat)
    requires i < j <= |es| && es[i].SuppressUnavailable?
    ensures At(c, es, j).suppressBlocked && At(c, es, j).Owns()
  {
    Extend(c, es, j - 1);
    if j > i + 1 {
      BlockedNeverCrosses(c, es, i, j - 1);
      BlockedStays(At(c, es, j - 1), es[j - 1]);
    }
  }
}
