/** Lease timing: how often a holder must tick, and how late a renewal may arrive. */
module ElectionTiming {
  import opened Common
  import opened Election
  import opened ElectionRuns

  // ---- The holder alone ------------------------------------------------------------

  /** A message that does not outrank the lease (holder, term) and does not yield it. */
  predicate Inferior(i: Input, holder: DeviceId, term: nat) {
    match i
    case GotLease(l, _) => if l.holder == holder then l.term < term else !Supersedes(l.term, l.holder, term, holder)
    case GotClaim(c, t) => !Supersedes(t, c, term, holder)
    case GotYield(f, t) => t <= term && !(f == holder && t == term)
    case _ => false
  }

  /** `ins` ticks the holder at most `g` apart after `last`, with any inferior messages in between. */
  predicate Paced(holder: DeviceId, term: nat, last: nat, ins: seq<Input>, g: nat)
    decreases |ins|
  {
    ins == [] ||
    if ins[0].Ticked? then last <= ins[0].now <= last + g && Paced(holder, term, ins[0].now, ins[1..], g)
    else Inferior(ins[0], holder, term) && Paced(holder, term, last, ins[1..], g)
  }

  /** Ticked at `last`, the holder had renewed less than a third of the TTL before, or just then. */
  predicate Renewing(s: State, ttl: nat, last: nat) {
    && s.held.Some? && s.held.value.holder == s.me && s.held.value.ttl == ttl > 0
    && ttl <= s.held.value.deadline
    && var start := s.held.value.deadline - ttl;
       start <= last && (last == start || last - start < ttl / 3)
  }

  /** The tick gaps the holder survives. */
  predicate SafeGap(g: nat, ttl: nat) { g < ttl && g + ttl / 3 <= ttl }

  lemma {:induction false} TickRenews(s: State, ttl: nat, last: nat, now: nat, g: nat)
    requires Renewing(s, ttl, last) && SafeGap(g, ttl) && last <= now <= last + g
    ensures var s' := OnTick(s, now).0; Renewing(s', ttl, now) && s'.Holds(s.me, s.held.value.term) && s'.me == s.me
  {
  }

  lemma {:induction false} InferiorChangesNothing(s: State, i: Input)
    requires s.held.Some? && s.held.value.holder == s.me && Inferior(i, s.me, s.held.value.term)
    ensures Apply(s, i).0.held == s.held && Apply(s, i).0.me == s.me
  {
  }

  lemma {:induction false} HolderNeverLapses(s: State, ttl: nat, last: nat, ins: seq<Input>, g: nat)
    requires Renewing(s, ttl, last) && SafeGap(g, ttl)
    requires Paced(s.me, s.held.value.term, last, ins, g)
    ensures After(s, ins).Holds(s.me, s.held.value.term)
    decreases |ins|
  {
    if ins != [] {
      var s1 := Apply(s, ins[0]).0;
      if ins[0].Ticked? {
        TickRenews(s, ttl, last, ins[0].now, g);
        HolderNeverLapses(s1, ttl, ins[0].now, ins[1..], g);
      } else {
        InferiorChangesNothing(s, ins[0]);
        HolderNeverLapses(s1, ttl, last, ins[1..], g);
      }
    }
  }

  /** The bound is exact: a lease taken at `now` survives every pacing of gap `g` iff the gap is safe. */
  lemma {:induction false} HolderSurvivesIff(s: State, now: nat, g: nat)
    requires s.held.Some? && s.held.value.holder == s.me && s.held.value.ttl > 0
    requires s.held.value.deadline == now + s.held.value.ttl
    ensures (forall ins :: Paced(s.me, s.held.value.term, now, ins, g) ==>
               After(s, ins).Holds(s.me, s.held.value.term)) <==> SafeGap(g, s.held.value.ttl)
  {
    var term, ttl := s.held.value.term, s.held.value.ttl;
    if SafeGap(g, ttl) {
      forall ins | Paced(s.me, term, now, ins, g) ensures After(s, ins).Holds(s.me, term) {
        HolderNeverLapses(s, ttl, now, ins, g);
      }
    } else {
      var ins := if g >= ttl then [Ticked(now + ttl)]
                 else [Ticked(now + ttl / 3 - 1), Ticked(now + ttl / 3 - 1 + g)];
      LatePacing(s, now, g, ins);
    }
  }

  lemma {:induction false} LatePacing(s: State, now: nat, g: nat, ins: seq<Input>)
    requires s.held.Some? && s.held.value.holder == s.me && s.held.value.ttl > 0
    requires s.held.value.deadline == now + s.held.value.ttl && !SafeGap(g, s.held.value.ttl)
    requires var ttl := s.held.value.ttl;
             ins == if g >= ttl then [Ticked(now + ttl)] else [Ticked(now + ttl / 3 - 1), Ticked(now + ttl / 3 - 1 + g)]
    ensures Paced(s.me, s.held.value.term, now, ins, g) && After(s, ins).held.None?
  {
    var term, ttl := s.held.value.term, s.held.value.ttl;
    if g >= ttl {
      assert ins[1..] == [];
      assert Apply(s, ins[0]).0.held.None?;
    } else {
      assert ins[1..] == [ins[1]] && ins[1..][1..] == [];
      assert Apply(s, ins[0]).0 == s;
      assert Apply(s, ins[1]).0.held.None?;
      assert Paced(s.me, term, ins[0].now, ins[1..], g);
      assert After(s, ins) == After(s, ins[1..]) == After(Apply(s, ins[1]).0, []);
    }
  }

  // ---- Holder and follower ------------------------------------------------------------

  /** A shared clock, the two machines, and the renewals on the wire as (lease, time sent), oldest first. */
  datatype Pair = Pair(now: nat, holder: State, follower: State, wire: seq<(Lease, nat)>, lastTick: nat)

  datatype Bounds = Bounds(g: nat, d: nat)

  datatype Step =
    | Wait(until: nat)
    | HolderTick
    | FollowerTick
    | Arrive(k: nat)              // any renewal on the wire, in any order
    | HolderNoise(i: Input)
    | FollowerNoise(i: Input)

  /** Time passes only while the next tick and every delivery are within their bounds. */
  predicate Allowed(p: Pair, b: Bounds, x: Step) {
    && p.holder.held.Some?
    && var h := p.holder.held.value;
    match x
    case Wait(t) => p.now <= t <= p.lastTick + b.g && forall m :: m in p.wire ==> t <= m.1 + b.d
    case HolderTick => true
    case FollowerTick => true
    case Arrive(k) => k < |p.wire|
    case HolderNoise(i) => Inferior(i, h.holder, h.term)
    case FollowerNoise(i) => Inferior(i, h.holder, h.term)
  }

  function Next(p: Pair, x: Step): Pair
    requires x.Arrive? ==> x.k < |p.wire|
  {
    match x
    case Wait(t) => p.(now := t)
    case HolderTick =>
      var (s, e) := OnTick(p.holder, p.now);
      p.(holder := s, lastTick := p.now, wire := if e.RenewLease? then p.wire + [(e.lease, p.now)] else p.wire)
    case FollowerTick => p.(follower := OnTick(p.follower, p.now).0)
    case Arrive(k) =>
      p.(follower := OnLease(p.follower, p.wire[k].0, p.now).0, wire := p.wire[..k] + p.wire[k + 1..])
    case HolderNoise(i) => p.(holder := Apply(p.holder, i).0)
    case FollowerNoise(i) => p.(follower := Apply(p.follower, i).0)
  }

  predicate Believes(p: Pair) {
    p.holder.held.Some? && p.follower.Holds(p.holder.me, p.holder.held.value.term)
  }

  predicate HolderInv(p: Pair, b: Bounds) {
    && p.holder.held.Some? && Renewing(p.holder, p.holder.held.value.ttl, p.lastTick)
    && p.holder.held.value.ttl <= MAX_TTL
    && p.lastTick <= p.now <= p.lastTick + b.g
  }

  predicate WireInv(p: Pair, b: Bounds)
    requires p.holder.held.Some?
  {
    var h := p.holder.held.value;
    && (forall m :: m in p.wire ==> m.0 == h.AsLease() && m.1 + h.ttl <= h.deadline && m.1 <= p.now <= m.1 + b.d)
    && (forall i, j :: 0 <= i < j < |p.wire| ==> p.wire[i].1 <= p.wire[j].1)
  }

  /** The follower knows no superior term, and if it believes, its deadline outlasts what is on its way. */
  predicate FollowerInv(p: Pair, b: Bounds)
    requires p.holder.held.Some?
  {
    var h := p.holder.held.value;
    && p.follower.me != p.holder.me && p.follower.seen <= h.term
    && (p.follower.held.Some? && !Believes(p) ==>
          Supersedes(h.term, h.holder, p.follower.held.value.term, p.follower.held.value.holder))
    && (Believes(p) ==>
          if p.wire == [] then p.follower.held.value.deadline >= h.deadline
          else p.follower.held.value.deadline > p.wire[0].1 + b.d)
  }

  /** How far ticks and deliveries may lag together. */
  predicate SafePair(b: Bounds, ttl: nat) { b.g + b.d < ttl && ttl / 3 + b.g + b.d <= ttl }

  predicate Inv(p: Pair, b: Bounds) {
    && HolderInv(p, b) && WireInv(p, b) && FollowerInv(p, b)
    && SafePair(b, p.holder.held.value.ttl)
  }

  lemma {:induction false} HolderTickKeeps(p: Pair, b: Bounds)
    requires Inv(p, b)
    ensures Inv(Next(p, HolderTick), b)
  {
    var h := p.holder.held.value;
    TickRenews(p.holder, h.ttl, p.lastTick, p.now, b.g);
    var p' := Next(p, HolderTick);
    if OnTick(p.holder, p.now).1.RenewLease? {
      forall m | m in p'.wire
        ensures m.0 == h.AsLease() && m.1 + h.ttl <= p'.holder.held.value.deadline && m.1 <= p.now <= m.1 + b.d
      {
        if m !in p.wire { assert m == (h.AsLease(), p.now); }
      }
      forall i, j | 0 <= i < j < |p'.wire| ensures p'.wire[i].1 <= p'.wire[j].1 {
        assert p'.wire[i] in p.wire;
      }
    }
  }

  lemma {:induction false} ArriveKeeps(p: Pair, b: Bounds, k: nat)
    requires Inv(p, b) && k < |p.wire|
    ensures Inv(Next(p, Arrive(k)), b) && Believes(Next(p, Arrive(k)))
  {
    var h := p.holder.held.value;
    var p' := Next(p, Arrive(k));
    var lease := p.wire[k].0;
    assert p.wire[k] in p.wire && lease == h.AsLease() && ClampTtl(h.ttl) == h.ttl;
    assert p'.follower == Install(p.follower, lease, p.now);
    forall m | m in p'.wire ensures m in p.wire {}
    if p'.wire != [] { assert p'.wire[0] in p.wire; }
  }

  lemma {:induction false} FollowerTickKeeps(p: Pair, b: Bounds)
    requires Inv(p, b)
    ensures Inv(Next(p, FollowerTick), b) && (Believes(p) ==> Believes(Next(p, FollowerTick)))
  {
    if p.wire != [] { assert p.wire[0] in p.wire; }
    if Believes(p) { assert p.now < p.follower.held.value.deadline; }
  }

  lemma {:induction false} NoiseKeeps(p: Pair, b: Bounds, x: Step)
    requires Inv(p, b) && Allowed(p, b, x) && (x.HolderNoise? || x.FollowerNoise?)
    ensures Inv(Next(p, x), b) && (Believes(p) ==> Believes(Next(p, x)))
  {
    if x.HolderNoise? { InferiorChangesNothing(p.holder, x.i); }
  }

  lemma {:induction false} NextKeeps(p: Pair, b: Bounds, x: Step)
    requires Inv(p, b) && Allowed(p, b, x)
    ensures Inv(Next(p, x), b)
    ensures Next(p, x).holder.Holds(p.holder.me, p.holder.held.value.term) && Next(p, x).holder.me == p.holder.me
    ensures Believes(p) ==> Believes(Next(p, x))
  {
    match x {
      case Wait(_) =>
      case HolderTick =>
        TickRenews(p.holder, p.holder.held.value.ttl, p.lastTick, p.now, b.g);
        HolderTickKeeps(p, b);
      case FollowerTick => FollowerTickKeeps(p, b);
      case Arrive(k) => ArriveKeeps(p, b, k);
      case HolderNoise(i) =>
        InferiorChangesNothing(p.holder, i);
        NoiseKeeps(p, b, x);
      case FollowerNoise(_) => NoiseKeeps(p, b, x);
    }
  }

  predicate Runs(p: Pair, b: Bounds, xs: seq<Step>)
    decreases |xs|
  {
    xs == [] || (Allowed(p, b, xs[0]) && Runs(Next(p, xs[0]), b, xs[1..]))
  }

  function AfterSteps(p: Pair, b: Bounds, xs: seq<Step>): Pair
    requires Runs(p, b, xs)
    decreases |xs|
  {
    if xs == [] then p else AfterSteps(Next(p, xs[0]), b, xs[1..])
  }

  /** Along every run the holder keeps its lease, and a follower that once believes it never stops. */
  lemma {:induction false} FollowerNeverExpires(p: Pair, b: Bounds, xs: seq<Step>)
    requires Inv(p, b) && Runs(p, b, xs)
    ensures Inv(AfterSteps(p, b, xs), b)
    ensures AfterSteps(p, b, xs).holder.Holds(p.holder.me, p.holder.held.value.term)
    ensures Believes(p) ==> Believes(AfterSteps(p, b, xs))
    decreases |xs|
  {
    if xs != [] {
      NextKeeps(p, b, xs[0]);
      FollowerNeverExpires(Next(p, xs[0]), b, xs[1..]);
    }
  }

  // ---- The bound is exact ------------------------------------------------------------------

  /** The holder has just renewed and the follower has just heard of it. */
  predicate InStep(p: Pair) {
    && p.holder.held.Some? && p.holder.held.value.holder == p.holder.me && p.follower.me != p.holder.me
    && var h := p.holder.held.value;
    && 0 < h.ttl <= MAX_TTL && h.deadline == p.now + h.ttl && p.lastTick == p.now && p.wire == []
    && p.follower.held == p.holder.held && p.follower.seen <= h.term
  }

  lemma {:induction false} RunsConcat(p: Pair, b: Bounds, xs: seq<Step>, ys: seq<Step>)
    requires Runs(p, b, xs) && Runs(AfterSteps(p, b, xs), b, ys)
    ensures Runs(p, b, xs + ys) && AfterSteps(p, b, xs + ys) == AfterSteps(AfterSteps(p, b, xs), b, ys)
    decreases |xs|
  {
    if xs == [] {
      assert xs + ys == ys;
    } else {
      assert (xs + ys)[1..] == xs[1..] + ys;
      RunsConcat(Next(p, xs[0]), b, xs[1..], ys);
    }
  }

  lemma {:induction false} TwoSteps(p: Pair, b: Bounds, x: Step, y: Step)
    requires Allowed(p, b, x) && Allowed(Next(p, x), b, y)
    ensures Runs(p, b, [x, y]) && AfterSteps(p, b, [x, y]) == Next(Next(p, x), y)
  {
    assert [x, y][1..] == [y] && [y][1..] == [];
    assert AfterSteps(Next(Next(p, x), y), b, []) == Next(Next(p, x), y);
    assert AfterSteps(Next(p, x), b, [y]) == Next(Next(p, x), y);
  }

  /** Before a third of the TTL has passed, ticks send nothing and change nothing. */
  lemma {:induction false} QuietTicks(p: Pair, b: Bounds, n: nat) returns (xs: seq<Step>)
    requires p.holder.held.Some? && p.wire == [] && p.lastTick == p.now && b.g >= 1
    requires n > 0 ==> p.now + n < RenewAt(p.holder.held.value)
    ensures Runs(p, b, xs) && AfterSteps(p, b, xs) == p.(now := p.now + n, lastTick := p.now + n)
    decreases n
  {
    if n == 0 {
      xs := [];
    } else {
      var p1 := p.(now := p.now + 1, lastTick := p.now + 1);
      TwoSteps(p, b, Wait(p.now + 1), HolderTick);
      assert Next(Next(p, Wait(p.now + 1)), HolderTick) == p1;
      var rest := QuietTicks(p1, b, n - 1);
      xs := [Wait(p.now + 1), HolderTick] + rest;
      RunsConcat(p, b, [Wait(p.now + 1), HolderTick], rest);
    }
  }

  /** Ticking every nanosecond the holder keeps its lease, while every renewal stays on the wire until `t`. */
  lemma {:induction false} BusyTicks(p: Pair, b: Bounds, t: nat) returns (xs: seq<Step>)
    requires p.holder.held.Some? && Renewing(p.holder, p.holder.held.value.ttl, p.lastTick) && p.lastTick == p.now <= t
    requires SafeGap(1, p.holder.held.value.ttl) && b.g >= 1 && t <= p.now + b.d
    requires forall m :: m in p.wire ==> t <= m.1 + b.d
    ensures Runs(p, b, xs) && AfterSteps(p, b, xs).now == t && AfterSteps(p, b, xs).holder.held.Some?
    ensures AfterSteps(p, b, xs).follower == p.follower
    decreases t - p.now
  {
    if p.now == t {
      xs := [];
    } else {
      TickRenews(p.holder, p.holder.held.value.ttl, p.lastTick, p.now + 1, 1);
      TwoSteps(p, b, Wait(p.now + 1), HolderTick);
      var p1 := Next(Next(p, Wait(p.now + 1)), HolderTick);
      var rest := BusyTicks(p1, b, t);
      xs := [Wait(p.now + 1), HolderTick] + rest;
      RunsConcat(p, b, [Wait(p.now + 1), HolderTick], rest);
    }
  }

  /** From a state reached at the follower's deadline, its next tick expires the lease. */
  lemma {:induction false} TickExpires(p: Pair, b: Bounds, xs: seq<Step>) returns (ys: seq<Step>)
    requires Runs(p, b, xs)
    requires var q := AfterSteps(p, b, xs);
             q.holder.held.Some? && q.follower.held.Some? && q.now >= q.follower.held.value.deadline
    ensures Runs(p, b, ys) && !Believes(AfterSteps(p, b, ys))
  {
    var q := AfterSteps(p, b, xs);
    assert [FollowerTick][1..] == [] && AfterSteps(Next(q, FollowerTick), b, []) == Next(q, FollowerTick);
    RunsConcat(p, b, xs, [FollowerTick]);
    ys := xs + [FollowerTick];
  }

  /** Outside the bound: the holder ticks as late as it may, and its renewal arrives as late as it may. */
  lemma {:induction false} LateRenewal(p: Pair, b: Bounds) returns (xs: seq<Step>)
    requires InStep(p) && b.g >= 1 && !SafePair(b, p.holder.held.value.ttl)
    ensures Runs(p, b, xs) && !Believes(AfterSteps(p, b, xs))
  {
    var ttl := p.holder.held.value.ttl;
    var (m, end) := (if ttl / 3 == 0 then 0 else ttl / 3 - 1, p.now + ttl);
    var xs1 := QuietTicks(p, b, m);
    var p1 := p.(now := p.now + m, lastTick := p.now + m);
    var xs2 := if m + b.g >= ttl then [Wait(end)] else [];
    if m + b.g >= ttl {
      assert [Wait(end)][1..] == [] && AfterSteps(Next(p1, Wait(end)), b, []) == Next(p1, Wait(end));
    } else {
      var late := p1.now + b.g;
      TwoSteps(p1, b, Wait(late), HolderTick);
      var p2 := Next(Next(p1, Wait(late)), HolderTick);
      assert p2.wire == [(p.holder.held.value.AsLease(), late)];
      var xs3 := BusyTicks(p2, b, end);
      RunsConcat(p1, b, [Wait(late), HolderTick], xs3);
      xs2 := [Wait(late), HolderTick] + xs3;
    }
    RunsConcat(p, b, xs1, xs2);
    xs := TickExpires(p, b, xs1 + xs2);
  }

  /** A follower in step with its holder survives every run exactly when ticks and deliveries are safe together. */
  lemma {:induction false} FollowerSurvivesIff(p: Pair, b: Bounds)
    requires InStep(p) && b.g >= 1
    ensures (forall xs :: Runs(p, b, xs) ==> Believes(AfterSteps(p, b, xs))) <==> SafePair(b, p.holder.held.value.ttl)
  {
    if SafePair(b, p.holder.held.value.ttl) {
      assert Inv(p, b);
      forall xs | Runs(p, b, xs) ensures Believes(AfterSteps(p, b, xs)) { FollowerNeverExpires(p, b, xs); }
    } else {
      var xs := LateRenewal(p, b);
    }
  }

  /** The invariant holds when a machine has just won a campaign and the other has seen nothing above it. */
  lemma {:induction false} CampaignStarts(holder: State, follower: State, now: nat, b: Bounds)
    requires holder.Valid() && holder.seen < U64_MAX && MayCampaign(holder, now)
    requires follower.me != holder.me && follower.seen <= holder.seen && follower.Valid()
    requires var ttl := if holder.held.Some? then holder.held.value.ttl else DEFAULT_TTL;
             SafePair(b, ttl)
    ensures Inv(Pair(now, OnCampaign(holder, now).0, follower, [], now), b)
  {
  }
}
