/** The input-ownership token of one device: who owns input, at which epoch. */
module Ownership {
  import opened Common

  datatype FocusKind = Active | Standby | Disconnected | InputBlocked

  datatype TransferReason = EdgeCross | Hotkey | UiSelect | LocalReclaim

  datatype RejectReason = StaleEpoch | LostTiebreak | EqualEpochNotReclaim

  datatype OwnershipUpdate = Accepted(owner: DeviceId, epoch: nat) | Rejected(reason: RejectReason)

  datatype View = View(me: DeviceId, owner: DeviceId, epoch: nat, focus: FocusKind, reclaimOrigin: bool)
  {
    predicate IsOwner() { owner == me }
    predicate Valid() { epoch <= U64_MAX }
  }

  function Boot(me: DeviceId): View { View(me, me, 0, Active, false) }

  function FocusFor(me: DeviceId, owner: DeviceId): FocusKind { if owner == me then Active else Standby }

  function Granted(v: View, target: DeviceId): (View, Option<nat>) {
    if !v.IsOwner() then (v, None)
    else
      var e := SatAdd64(v.epoch, 1);
      (View(v.me, target, e, FocusFor(v.me, target), false), Some(e))
  }

  function Reclaimed(v: View): (View, nat) {
    var e := SatAdd64(v.epoch, 1);
    (View(v.me, v.me, e, Active, true), e)
  }

  function Adopted(v: View, owner: DeviceId, epoch: nat, isReclaim: bool): (View, OwnershipUpdate) {
    (View(v.me, owner, epoch, FocusFor(v.me, owner), isReclaim), Accepted(owner, epoch))
  }

  function Observed(v: View, owner: DeviceId, epoch: nat, isReclaim: bool): (View, OwnershipUpdate) {
    if epoch > v.epoch then Adopted(v, owner, epoch, isReclaim)
    else if epoch == v.epoch && owner != v.owner then
      if !(v.reclaimOrigin && isReclaim) then (v, Rejected(EqualEpochNotReclaim))
      else if owner < v.owner then Adopted(v, owner, epoch, isReclaim)
      else (v, Rejected(LostTiebreak))
    else (v, Rejected(StaleEpoch))
  }

  class Token {
    const me: DeviceId
    var owner: DeviceId
    var epoch: nat
    var focus: FocusKind
    var reclaimOrigin: bool

    function Now(): View
      reads this
    {
      View(me, owner, epoch, focus, reclaimOrigin)
    }

    constructor (me: DeviceId)
      ensures Now() == Boot(me)
    {
      this.me, owner, epoch, focus, reclaimOrigin := me, me, 0, Active, false;
    }

    method GrantTo(target: DeviceId) returns (minted: Option<nat>)
      modifies this
      ensures (Now(), minted) == Granted(old(Now()), target)
    {
      if owner != me { return None; }
      epoch := SatAdd64(epoch, 1);
      owner := target;
      focus := if target == me then Active else Standby;
      reclaimOrigin := false;
      minted := Some(epoch);
    }

    method Reclaim() returns (minted: nat)
      modifies this
      ensures (Now(), minted) == Reclaimed(old(Now()))
    {
      epoch := SatAdd64(epoch, 1);
      owner, focus, reclaimOrigin := me, Active, true;
      minted := epoch;
    }

    method Adopt(newOwner: DeviceId, newEpoch: nat, isReclaim: bool) returns (u: OwnershipUpdate)
      modifies this
      ensures (Now(), u) == Adopted(old(Now()), newOwner, newEpoch, isReclaim)
    {
      owner, epoch, reclaimOrigin := newOwner, newEpoch, isReclaim;
      focus := if newOwner == me then Active else Standby;
      u := Accepted(newOwner, newEpoch);
    }

    method Observe(newOwner: DeviceId, newEpoch: nat, isReclaim: bool) returns (u: OwnershipUpdate)
      modifies this
      ensures (Now(), u) == Observed(old(Now()), newOwner, newEpoch, isReclaim)
    {
      if newEpoch > epoch {
        u := Adopt(newOwner, newEpoch, isReclaim);
        return;
      }
      if newEpoch == epoch && newOwner != owner {
        if !(reclaimOrigin && isReclaim) { return Rejected(EqualEpochNotReclaim); }
        if newOwner < owner {
          u := Adopt(newOwner, newEpoch, isReclaim);
          return;
        }
        return Rejected(LostTiebreak);
      }
      u := Rejected(StaleEpoch);
    }

    method ObserveWithReason(newOwner: DeviceId, newEpoch: nat, reason: TransferReason) returns (u: OwnershipUpdate)
      modifies this
      ensures (Now(), u) == Observed(old(Now()), newOwner, newEpoch, reason == LocalReclaim)
    {
      u := Observe(newOwner, newEpoch, reason == LocalReclaim);
    }
  }

  /** A claim is taken exactly if its epoch is newer, or the same with a lower owner and both are reclaims; then owner,
      epoch, origin and focus are the claim's. Otherwise nothing changes, and the reason says which case it was. */
  lemma {:induction false} ObserveIs(v: View, owner: DeviceId, epoch: nat, isReclaim: bool)
    ensures var (v', u) := Observed(v, owner, epoch, isReclaim);
            var race := epoch == v.epoch && owner != v.owner;
            && (u.Accepted? <==> epoch > v.epoch || (race && isReclaim && v.reclaimOrigin && owner < v.owner))
            && (u.Accepted? ==>
                  && u == Accepted(owner, epoch) && v'.me == v.me && v'.owner == owner && v'.epoch == epoch
                  && v'.reclaimOrigin == isReclaim && v'.focus == (if owner == v.me then Active else Standby))
            && (u.Rejected? ==> v' == v)
            && (u == Rejected(LostTiebreak) <==> race && isReclaim && v.reclaimOrigin && owner > v.owner)
            && (u == Rejected(EqualEpochNotReclaim) <==> race && !(isReclaim && v.reclaimOrigin))
            && (u == Rejected(StaleEpoch) <==> epoch < v.epoch || (epoch == v.epoch && owner == v.owner))
  {
  }

  /** A handoff delivered to a target that is not ahead leaves exactly one owner, active, at one new epoch. */
  lemma {:induction false} HandoffIsExclusive(a: View, b: View)
    requires a.IsOwner() && a.me != b.me && b.epoch <= a.epoch < U64_MAX
    ensures var (a', minted) := Granted(a, b.me);
            && minted == Some(a.epoch + 1)
            && var (b', u) := Observed(b, b.me, minted.value, false);
            && u == Accepted(b.me, a.epoch + 1)
            && b'.IsOwner() && !a'.IsOwner() && a'.owner == b'.owner && a'.epoch == b'.epoch
            && b'.focus == Active && a'.focus == Standby
  {
  }

  /** Two devices that reclaim at once and hear each other end with one owner, the lower id; the order of
      delivery does not matter. */
  lemma {:induction false} SimultaneousReclaim(a: View, b: View)
    requires a.epoch == b.epoch < U64_MAX && a.me < b.me
    ensures var (a1, b1) := (Reclaimed(a).0, Reclaimed(b).0);
            var (a2, ua) := Observed(a1, b.me, b1.epoch, true);
            var (b2, ub) := Observed(b1, a.me, a1.epoch, true);
            && ua == Rejected(LostTiebreak) && ub == Accepted(a.me, a.epoch + 1)
            && a2.owner == b2.owner == a.me && a2.epoch == b2.epoch
            && a2.focus == Active && b2.focus == Standby
  {
  }
}

/**
  N devices whose minted claims travel over a network that may lose, duplicate and reorder them:
  a claim once minted stays available for delivery to anyone, any number of times, or never.
 */
module OwnershipNet {
  import opened Common
  import opened Ownership

  datatype Claim = Claim(minter: DeviceId, owner: DeviceId, epoch: nat, isReclaim: bool)

  /** `minted` is every claim in minting order; `seen[n]` is every claim device n minted or received. */
  datatype Net = Net(nodes: map<DeviceId, View>, minted: seq<Claim>, seen: map<DeviceId, set<Claim>>)

  datatype Event =
    | Grant(node: DeviceId, target: DeviceId)
    | Reclaim(node: DeviceId)
    | Deliver(node: DeviceId, claim: Claim)
    | Mark(node: DeviceId, focus: FocusKind)

  predicate Fresh(w: Net) {
    && w.minted == [] && w.nodes.Keys == w.seen.Keys
    && forall n :: n in w.nodes ==> w.nodes[n] == Boot(n) && w.seen[n] == {}
  }

  /** A grant needs the owner; a delivery needs a minted claim; a mark is blocked or disconnected. */
  predicate Allowed(w: Net, e: Event) {
    && e.node in w.nodes && e.node in w.seen
    && match e
       case Grant(n, _) => w.nodes[n].IsOwner()
       case Reclaim(_) => true
       case Deliver(_, c) => c in w.minted
       case Mark(_, f) => f == InputBlocked || f == Disconnected
  }

  function Mint(w: Net, n: DeviceId, v: View, c: Claim): Net
    requires n in w.nodes && n in w.seen
  {
    Net(w.nodes[n := v], w.minted + [c], w.seen[n := w.seen[n] + {c}])
  }

  function Next(w: Net, e: Event): Net
    requires Allowed(w, e)
  {
    var v := w.nodes[e.node];
    match e
    case Grant(n, target) =>
      var v' := Granted(v, target).0;
      Mint(w, n, v', Claim(n, target, v'.epoch, false))
    case Reclaim(n) =>
      var v' := Reclaimed(v).0;
      Mint(w, n, v', Claim(n, n, v'.epoch, true))
    case Deliver(n, c) =>
      Net(w.nodes[n := Observed(v, c.owner, c.epoch, c.isReclaim).0], w.minted, w.seen[n := w.seen[n] + {c}])
    case Mark(n, f) => w.(nodes := w.nodes[n := v.(focus := f)])
  }

  predicate Runs(w: Net, es: seq<Event>)
    decreases |es|
  {
    es == [] || (Allowed(w, es[0]) && Runs(Next(w, es[0]), es[1..]))
  }

  function After(w: Net, es: seq<Event>): Net
    requires Runs(w, es)
    decreases |es|
  {
    if es == [] then w else After(Next(w, es[0]), es[1..])
  }

  // ---- The invariant ---------------------------------------------------------------

  predicate Matches(c: Claim, v: View) {
    c.owner == v.owner && c.epoch == v.epoch && c.isReclaim == v.reclaimOrigin
  }

  /** Above epoch 0 the view of `n` is exactly some minted claim. */
  predicate Traced(w: Net, n: DeviceId)
    requires n in w.nodes
  {
    w.nodes[n].epoch > 0 ==> exists c :: c in w.minted && Matches(c, w.nodes[n])
  }

  /** What `n` has seen is not above it, and no seen reclaim at its epoch beats its own reclaim. */
  predicate Settled(w: Net, n: DeviceId)
    requires n in w.nodes && n in w.seen
  {
    forall c :: c in w.seen[n] ==> c in w.minted && NotBeaten(w.nodes[n], c)
  }

  predicate NotBeaten(v: View, c: Claim) {
    && c.epoch <= v.epoch
    && (c.epoch == v.epoch < U64_MAX && c.isReclaim && v.reclaimOrigin ==> v.owner <= c.owner)
  }

  /** A device's own claims never run ahead of its view, and are numbered strictly upwards below saturation. */
  predicate MintsOrdered(w: Net) {
    && (forall c :: c in w.minted ==> c.minter in w.nodes && 1 <= c.epoch <= w.nodes[c.minter].epoch)
    && (forall j, k :: 0 <= j < k < |w.minted| ==> Later(w.minted[j], w.minted[k]))
  }

  predicate Later(a: Claim, b: Claim) {
    a.minter == b.minter ==> a.epoch < b.epoch || b.epoch == U64_MAX
  }

  predicate NodesInv(w: Net) {
    && w.nodes.Keys == w.seen.Keys
    && (forall n :: n in w.nodes ==> w.nodes[n].me == n && w.nodes[n].Valid())
    && (forall n {:trigger Traced(w, n)} {:trigger Settled(w, n)} :: n in w.nodes ==> Traced(w, n) && Settled(w, n))
  }

  predicate Inv(w: Net) { NodesInv(w) && MintsOrdered(w) }

  /** A device that an event does not touch keeps its part of the invariant. */
  lemma {:induction false} UntouchedKeeps(w: Net, w': Net, m: DeviceId)
    requires m in w.nodes && m in w.seen && m in w'.nodes && m in w'.seen
    requires Traced(w, m) && Settled(w, m)
    requires w'.nodes[m] == w.nodes[m].(focus := w'.nodes[m].focus) && w'.seen[m] == w.seen[m]
    requires forall c :: c in w.minted ==> c in w'.minted
    ensures Traced(w', m) && Settled(w', m)
  {
    if w.nodes[m].epoch > 0 {
      var c :| c in w.minted && Matches(c, w.nodes[m]);
      assert c in w'.minted && Matches(c, w'.nodes[m]);
    }
    forall c | c in w'.seen[m] ensures c in w'.minted && NotBeaten(w'.nodes[m], c) {
      assert c in w.minted && NotBeaten(w.nodes[m], c);
    }
  }

  lemma {:induction false} MintsStayOrdered(w: Net, n: DeviceId, v: View, c: Claim)
    requires Inv(w) && n in w.nodes
    requires v.epoch == SatAdd64(w.nodes[n].epoch, 1) && c.minter == n && c.epoch == v.epoch
    ensures MintsOrdered(Mint(w, n, v, c))
  {
    var w' := Mint(w, n, v, c);
    forall j, k | 0 <= j < k < |w'.minted| ensures Later(w'.minted[j], w'.minted[k]) {
      assert w'.minted[j] == w.minted[j] && w.minted[j] in w.minted;
      if k < |w.minted| { assert Later(w.minted[j], w.minted[k]); }
    }
  }

  lemma {:induction false} MinterSettles(w: Net, n: DeviceId, v: View, c: Claim)
    requires n in w.nodes && n in w.seen && Settled(w, n) && w.nodes[n].epoch <= U64_MAX
    requires v.me == n && v.epoch == SatAdd64(w.nodes[n].epoch, 1)
    requires c == Claim(n, v.owner, v.epoch, v.reclaimOrigin)
    ensures Traced(Mint(w, n, v, c), n) && Settled(Mint(w, n, v, c), n)
  {
    var w' := Mint(w, n, v, c);
    assert c in w'.minted && Matches(c, v);
    forall d | d in w'.seen[n] ensures d in w'.minted && NotBeaten(v, d) {
      if d != c { assert d in w.minted && NotBeaten(w.nodes[n], d); }
    }
  }

  lemma {:induction false} MintKeeps(w: Net, n: DeviceId, v: View, c: Claim)
    requires Inv(w) && n in w.nodes
    requires v.me == n && v.epoch == SatAdd64(w.nodes[n].epoch, 1)
    requires c == Claim(n, v.owner, v.epoch, v.reclaimOrigin)
    ensures Inv(Mint(w, n, v, c))
  {
    var w' := Mint(w, n, v, c);
    MintsStayOrdered(w, n, v, c);
    assert Settled(w, n);
    MinterSettles(w, n, v, c);
    forall m | m in w'.nodes ensures Traced(w', m) && Settled(w', m) {
      if m != n {
        assert Traced(w, m);
        UntouchedKeeps(w, w', m);
      }
    }
  }

  /** The acceptance rule leaves no seen claim able to beat the new view, and adopts only what it was shown. */
  lemma {:induction false} ObserveSettles(v: View, c: Claim)
    ensures var v' := Observed(v, c.owner, c.epoch, c.isReclaim).0;
            && (forall d :: NotBeaten(v, d) || d == c ==> NotBeaten(v', d))
            && v.epoch <= v'.epoch <= Max(v.epoch, c.epoch) && v'.me == v.me
            && (v' == v || Matches(c, v'))
  {
  }

  lemma {:induction false} DeliverKeeps(w: Net, n: DeviceId, c: Claim)
    requires Inv(w) && Allowed(w, Deliver(n, c))
    ensures Inv(Next(w, Deliver(n, c)))
  {
    var w' := Next(w, Deliver(n, c));
    assert c.minter in w.nodes && c.epoch <= w.nodes[c.minter].epoch && w.nodes[c.minter].Valid();
    ObserveSettles(w.nodes[n], c);
    ViewKeeps(w, w', n, w'.nodes[n], c);
    RaisedKeepsOrder(w, w');
  }

  lemma {:induction false} RaisedKeepsOrder(w: Net, w': Net)
    requires MintsOrdered(w) && w'.minted == w.minted
    requires forall n :: n in w.nodes ==> n in w'.nodes && w.nodes[n].epoch <= w'.nodes[n].epoch
    ensures MintsOrdered(w')
  {
    forall c | c in w'.minted ensures c.minter in w'.nodes && 1 <= c.epoch <= w'.nodes[c.minter].epoch {
      assert c in w.minted;
    }
  }

  lemma {:induction false} ViewKeeps(w: Net, w': Net, n: DeviceId, v: View, c: Claim)
    requires NodesInv(w) && n in w.nodes && c in w.minted
    requires w' == Net(w.nodes[n := v], w.minted, w.seen[n := w.seen[n] + {c}])
    requires forall d :: NotBeaten(w.nodes[n], d) || d == c ==> NotBeaten(v, d)
    requires v.Valid() && v.me == n
    requires v == w.nodes[n] || Matches(c, v)
    ensures NodesInv(w')
  {
    assert Traced(w, n) && Settled(w, n);
    assert Traced(w', n);
    forall m | m in w'.nodes ensures Traced(w', m) && Settled(w', m) {
      if m != n {
        assert Traced(w, m);
        UntouchedKeeps(w, w', m);
      }
    }
  }

  lemma {:induction false} NextKeeps(w: Net, e: Event)
    requires Inv(w) && Allowed(w, e)
    ensures Inv(Next(w, e))
  {
    match e {
      case Grant(n, target) =>
        var v' := Granted(w.nodes[n], target).0;
        MintKeeps(w, n, v', Claim(n, target, v'.epoch, false));
      case Reclaim(n) =>
        var v' := Reclaimed(w.nodes[n]).0;
        MintKeeps(w, n, v', Claim(n, n, v'.epoch, true));
      case Deliver(n, c) => DeliverKeeps(w, n, c);
      case Mark(n, f) =>
        var w' := Next(w, e);
        forall m | m in w'.nodes ensures Traced(w', m) && Settled(w', m) {
          assert Traced(w, m);
          UntouchedKeeps(w, w', m);
        }
    }
  }

  lemma {:induction false} RunKeeps(w: Net, es: seq<Event>)
    requires Inv(w) && Runs(w, es)
    ensures Inv(After(w, es))
    decreases |es|
  {
    if es != [] {
      NextKeeps(w, es[0]);
      RunKeeps(Next(w, es[0]), es[1..]);
    }
  }

  // ---- Main results ----------------------------------------------------------------

  /** Over every run no device's epoch ever decreases. */
  lemma {:induction false} EpochsNeverDecrease(w: Net, es: seq<Event>, n: DeviceId)
    requires Inv(w) && Runs(w, es) && n in w.nodes
    ensures n in After(w, es).nodes && w.nodes[n].epoch <= After(w, es).nodes[n].epoch
    decreases |es|
  {
    if es != [] {
      NextKeeps(w, es[0]);
      EpochsNeverDecrease(Next(w, es[0]), es[1..], n);
    }
  }

  /** In every reachable state each view above epoch 0 was minted, and no device minted twice at an epoch. */
  lemma {:induction false} Provenance(w0: Net, es: seq<Event>)
    requires Fresh(w0) && Runs(w0, es)
    ensures var w := After(w0, es);
            && (forall n :: n in w.nodes ==> Traced(w, n))
            && (forall j, k :: 0 <= j < k < |w.minted| ==> Later(w.minted[j], w.minted[k]))
  {
    assert Inv(w0);
    RunKeeps(w0, es);
  }

  /** `e` is the top epoch and every claim minted at it is a reclaim. */
  predicate ReclaimRace(w: Net, e: nat) {
    && (exists c :: c in w.minted && c.epoch == e)
    && (forall c :: c in w.minted ==> c.epoch <= e)
    && (forall c :: c in w.minted && c.epoch == e ==> c.isReclaim)
  }

  predicate SeenAllAt(w: Net, n: DeviceId, e: nat)
    requires n in w.seen
  {
    forall c :: c in w.minted && c.epoch == e ==> c in w.seen[n]
  }

  predicate LowestOwnerAt(w: Net, o: DeviceId, e: nat) {
    && (exists c :: c in w.minted && c.epoch == e && c.owner == o)
    && (forall c :: c in w.minted && c.epoch == e ==> o <= c.owner)
  }

  /** A race of reclaims at the top epoch converges: whoever has seen all of them holds the lowest id among them. */
  lemma {:induction false} RaceConverges(w0: Net, es: seq<Event>, e: nat, n: DeviceId)
    requires Fresh(w0) && Runs(w0, es)
    requires 0 < e < U64_MAX && ReclaimRace(After(w0, es), e)
    requires n in After(w0, es).nodes && n in After(w0, es).seen && SeenAllAt(After(w0, es), n, e)
    ensures After(w0, es).nodes[n].epoch == e
    ensures LowestOwnerAt(After(w0, es), After(w0, es).nodes[n].owner, e)
  {
    assert Inv(w0);
    RunKeeps(w0, es);
    var w := After(w0, es);
    assert Traced(w, n) && Settled(w, n);
    var c :| c in w.minted && c.epoch == e;
    assert c in w.seen[n] && NotBeaten(w.nodes[n], c);
    var mine :| mine in w.minted && Matches(mine, w.nodes[n]);
    forall d | d in w.minted && d.epoch == e ensures w.nodes[n].owner <= d.owner {
      assert d in w.seen[n] && NotBeaten(w.nodes[n], d);
    }
  }

  // ---- Claims of both kinds at one epoch --------------------------------------------

  /** The view after receiving `cs` in order. */
  function Received(v: View, cs: seq<Claim>): View {
    if cs == [] then v
    else
      var c := cs[|cs| - 1];
      Observed(Received(v, cs[..|cs| - 1]), c.owner, c.epoch, c.isReclaim).0
  }

  predicate LowestReclaim(cs: seq<Claim>, o: DeviceId) {
    && (exists c :: c in cs && c.isReclaim && c.owner == o)
    && (forall c :: c in cs && c.isReclaim ==> o <= c.owner)
  }

  /** A first grant stands; after a first reclaim the lowest reclaim wins and grants are ignored. */
  lemma {:induction false} FirstDecides(v: View, cs: seq<Claim>, e: nat)
    requires cs != [] && v.epoch < e && forall c :: c in cs ==> c.epoch == e
    ensures Received(v, cs).epoch == e && Received(v, cs).reclaimOrigin == cs[0].isReclaim
    ensures if cs[0].isReclaim then LowestReclaim(cs, Received(v, cs).owner) else Received(v, cs).owner == cs[0].owner
  {
    var rest, c := cs[..|cs| - 1], cs[|cs| - 1];
    if rest == [] {
      assert cs == [c];
    } else {
      FirstDecides(v, rest, e);
      assert cs == rest + [c] && rest[0] == cs[0];
      if cs[0].isReclaim {
        var o := Received(v, rest).owner;
        var w :| w in rest && w.isReclaim && w.owner == o;
        assert w in cs;
        assert c in cs;
      }
    }
  }

  predicate SameClaims(ds: seq<Claim>, cs: seq<Claim>) {
    (forall c :: c in ds ==> c in cs) && (forall c :: c in cs ==> c in ds)
  }

  /** All grants name one owner, and it is the lowest reclaimer if there are reclaims as well. */
  predicate Agreeable(cs: seq<Claim>) {
    forall a, b :: a in cs && b in cs && !a.isReclaim ==>
      if b.isReclaim then LowestReclaim(cs, a.owner) else a.owner == b.owner
  }

  /** The outcome of one epoch's claims does not depend on their order exactly when they are agreeable. */
  lemma {:induction false} OrderIrrelevantIff(v: View, cs: seq<Claim>, e: nat)
    requires cs != [] && v.epoch < e && forall c :: c in cs ==> c.epoch == e
    ensures (forall ds :: SameClaims(ds, cs) ==> Received(v, ds).owner == Received(v, cs).owner) <==> Agreeable(cs)
  {
    if Agreeable(cs) {
      forall ds | SameClaims(ds, cs) ensures Received(v, ds).owner == Received(v, cs).owner {
        assert cs[0] in ds;
        AgreeableOutcome(v, ds, cs, e);
      }
    }
    if forall ds :: SameClaims(ds, cs) ==> Received(v, ds).owner == Received(v, cs).owner {
      forall a, b | a in cs && b in cs && !a.isReclaim
        ensures if b.isReclaim then LowestReclaim(cs, a.owner) else a.owner == b.owner
      {
        var first, second := [a] + cs, [b] + cs;
        assert SameClaims(first, cs) && SameClaims(second, cs);
        FirstDecides(v, first, e);
        FirstDecides(v, second, e);
        LowestSame(second, cs, a.owner);
      }
    }
  }

  lemma {:induction false} LowestSame(ds: seq<Claim>, cs: seq<Claim>, o: DeviceId)
    requires SameClaims(ds, cs)
    ensures LowestReclaim(ds, o) <==> LowestReclaim(cs, o)
  {
    if LowestReclaim(ds, o) {
      var c :| c in ds && c.isReclaim && c.owner == o;
      assert c in cs;
    }
    if LowestReclaim(cs, o) {
      var c :| c in cs && c.isReclaim && c.owner == o;
      assert c in ds;
    }
  }

  lemma {:induction false} AgreeableOutcome(v: View, ds: seq<Claim>, cs: seq<Claim>, e: nat)
    requires ds != [] && cs != [] && v.epoch < e && forall c :: c in cs ==> c.epoch == e
    requires SameClaims(ds, cs) && Agreeable(cs)
    ensures Received(v, ds).owner == Received(v, cs).owner
  {
    assert forall c :: c in ds ==> c.epoch == e;
    FirstDecides(v, ds, e);
    FirstDecides(v, cs, e);
    LowestSame(ds, cs, Received(v, ds).owner);
    assert ds[0] in cs && cs[0] in cs;
    OneLowest(cs, Received(v, ds).owner, Received(v, cs).owner);
  }

  lemma {:induction false} OneLowest(cs: seq<Claim>, o: DeviceId, p: DeviceId)
    ensures LowestReclaim(cs, o) && LowestReclaim(cs, p) ==> o == p
  {
  }

  /** A grant and a reclaim at one epoch, received in the two orders: two devices disagree until the next
      epoch. */
  lemma {:induction false} MixedClaimsDisagree()
    ensures var grant, reclaim := Claim(1, 9, 1, false), Claim(2, 2, 1, true);
            Received(Boot(5), [grant, reclaim]).owner != Received(Boot(6), [reclaim, grant]).owner
  {
    var grant, reclaim := Claim(1, 9, 1, false), Claim(2, 2, 1, true);
    FirstDecides(Boot(5), [grant, reclaim], 1);
    FirstDecides(Boot(6), [reclaim, grant], 1);
  }
}
