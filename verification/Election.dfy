/** The lease-based coordinator election machine. Times are in nanoseconds of a local monotonic clock. */
module Election {
  import opened Common

  const MILLI: nat := 1_000_000
  const DEFAULT_TTL: nat := 6000 * MILLI
  const MAX_TTL: nat := 30_000 * MILLI

  datatype Lease = Lease(holder: DeviceId, term: nat, ttl: nat)

  datatype Held = Held(holder: DeviceId, term: nat, ttl: nat, deadline: nat)
  {
    function AsLease(): Lease { Lease(holder, term, ttl) }
  }

  datatype Event =
    | Nothing
    | Claim(candidate: DeviceId, term: nat)
    | Yield(from: DeviceId, term: nat)
    | RenewLease(lease: Lease)

  datatype State = State(me: DeviceId, held: Option<Held>, seen: nat)
  {
    predicate Holds(d: DeviceId, term: nat) { held.Some? && held.value.holder == d && held.value.term == term }

    /** The believed term was seen, and a stored TTL lies in (0, 30 s] with the deadline that far after its start. */
    predicate Valid() {
      && seen <= U64_MAX
      && (held.Some? ==>
            held.value.term <= seen && 0 < held.value.ttl <= MAX_TTL && held.value.ttl <= held.value.deadline)
    }
  }

  function New(me: DeviceId): State { State(me, None, 0) }

  function ClampTtl(ttl: nat): nat { if ttl == 0 then DEFAULT_TTL else Min(ttl, MAX_TTL) }

  /** Higher term wins; at equal terms the lower id. */
  predicate Supersedes(term: nat, holder: DeviceId, otherTerm: nat, otherHolder: DeviceId) {
    if term != otherTerm then term > otherTerm else holder < otherHolder
  }

  function Install(s: State, lease: Lease, now: nat): State {
    var ttl := ClampTtl(lease.ttl);
    s.(held := Some(Held(lease.holder, lease.term, ttl, now + ttl)), seen := Max(s.seen, lease.term))
  }

  function OnLease(s: State, lease: Lease, now: nat): (State, Event) {
    if s.held.None? then
      if lease.term < s.seen then (s, Nothing) else (Install(s, lease, now), Nothing)
    else
      var cur := s.held.value;
      if cur.holder == lease.holder && lease.term >= cur.term then (Install(s, lease, now), Nothing)
      else if Supersedes(lease.term, lease.holder, cur.term, cur.holder) then
        (Install(s, lease, now), if cur.holder == s.me then Yield(s.me, cur.term) else Nothing)
      else (s.(seen := Max(s.seen, lease.term)), Nothing)
  }

  function OnClaim(s: State, candidate: DeviceId, term: nat): (State, Event) {
    var s1 := s.(seen := Max(s.seen, term));
    if s.held.None? || s.held.value.holder != s.me then (s1, Nothing)
    else if Supersedes(term, candidate, s.held.value.term, s.held.value.holder) then
      (s1.(held := None), Yield(s.me, s.held.value.term))
    else (s1, RenewLease(s.held.value.AsLease()))
  }

  function OnYield(s: State, from: DeviceId, term: nat): State {
    s.(seen := Max(s.seen, term), held := if s.Holds(from, term) then None else s.held)
  }

  function RenewAt(h: Held): int { h.deadline - h.ttl + h.ttl / 3 }

  function OnTick(s: State, now: nat): (State, Event) {
    if s.held.None? then (s, Nothing)
    else
      var cur := s.held.value;
      if now >= cur.deadline then (s.(held := None), Nothing)
      else if cur.holder == s.me && now >= RenewAt(cur) then
        var renewed := cur.(deadline := now + cur.ttl);
        (s.(held := Some(renewed)), RenewLease(renewed.AsLease()))
      else (s, Nothing)
  }

  predicate MayCampaign(s: State, now: nat) {
    s.held.None? || now >= s.held.value.deadline || s.held.value.holder == s.me || s.me < s.held.value.holder
  }

  function OnCampaign(s: State, now: nat): (State, Event) {
    if !MayCampaign(s, now) then (s, Nothing)
    else
      var term := SatAdd64(s.seen, 1);
      var ttl := if s.held.Some? then s.held.value.ttl else DEFAULT_TTL;
      (s.(held := Some(Held(s.me, term, ttl, now + ttl)), seen := term), Claim(s.me, term))
  }

  class Machine {
    const me: DeviceId
    var held: Option<Held>
    var seenTerm: nat

    ghost function View(): State
      reads this
    {
      State(me, held, seenTerm)
    }

    constructor (me: DeviceId)
      ensures View() == New(me)
    {
      this.me, held, seenTerm := me, None, 0;
    }

    method ReceiveLease(lease: Lease, now: nat) returns (e: Event)
      modifies this
      ensures (View(), e) == OnLease(old(View()), lease, now)
    {
      var priorSeen := seenTerm;
      seenTerm := Max(seenTerm, lease.term);
      var ttl := ClampTtl(lease.ttl);
      match held {
        case Some(cur) =>
          if cur.holder == lease.holder && lease.term >= cur.term {
            held := Some(Held(lease.holder, Max(lease.term, cur.term), ttl, now + ttl));
            return Nothing;
          }
          if Supersedes(lease.term, lease.holder, cur.term, cur.holder) {
            held := Some(Held(lease.holder, lease.term, ttl, now + ttl));
            if cur.holder == me { return Yield(me, cur.term); }
          }
          return Nothing;
        case None =>
          if lease.term < priorSeen { return Nothing; }
          held := Some(Held(lease.holder, lease.term, ttl, now + ttl));
          return Nothing;
      }
    }

    method ReceiveClaim(candidate: DeviceId, term: nat) returns (e: Event)
      modifies this
      ensures (View(), e) == OnClaim(old(View()), candidate, term)
    {
      seenTerm := Max(seenTerm, term);
      if held.None? { return Nothing; }
      var cur := held.value;
      if cur.holder != me { return Nothing; }
      if Supersedes(term, candidate, cur.term, cur.holder) {
        held := None;
        return Yield(me, cur.term);
      }
      e := RenewLease(cur.AsLease());
    }

    method ReceiveYield(from: DeviceId, term: nat)
      modifies this
      ensures View() == OnYield(old(View()), from, term)
    {
      seenTerm := Max(seenTerm, term);
      if held.Some? && held.value.holder == from && held.value.term == term { held := None; }
    }

    method Tick(now: nat) returns (e: Event)
      requires View().Valid()
      modifies this
      ensures (View(), e) == OnTick(old(View()), now)
    {
      if held.None? { return Nothing; }
      var cur := held.value;
      if now >= cur.deadline {
        held := None;
        return Nothing;
      }
      if cur.holder == me {
        var renewAt := cur.deadline - cur.ttl + cur.ttl / 3;
        if now >= renewAt {
          var renewed := cur.(deadline := now + cur.ttl);
          held := Some(renewed);
          return RenewLease(renewed.AsLease());
        }
      }
      e := Nothing;
    }

    method StartClaim(now: nat) returns (e: Event)
      modifies this
      ensures (View(), e) == OnCampaign(old(View()), now)
    {
      if !MayCampaign(State(me, held, seenTerm), now) { return Nothing; }
      var term := SatAdd64(seenTerm, 1);
      seenTerm := term;
      var ttl := if held.Some? then held.value.ttl else DEFAULT_TTL;
      held := Some(Held(me, term, ttl, now + ttl));
      e := Claim(me, term);
    }
  }
}

/** Runs of one machine: terms never go back, and a set of leases decides the coordinator in any order. */
module ElectionRuns {
  import opened Common
  import opened Election

  datatype Input =
    | GotLease(lease: Lease, now: nat)
    | GotClaim(candidate: DeviceId, term: nat)
    | GotYield(from: DeviceId, term: nat)
    | Ticked(now: nat)
    | Campaigned(now: nat)

  predicate OnWire(i: Input) {
    match i
    case GotLease(l, _) => l.term <= U64_MAX
    case GotClaim(_, t) => t <= U64_MAX
    case GotYield(_, t) => t <= U64_MAX
    case _ => true
  }

  function Apply(s: State, i: Input): (State, Event) {
    match i
    case GotLease(l, now) => OnLease(s, l, now)
    case GotClaim(c, t) => OnClaim(s, c, t)
    case GotYield(f, t) => (OnYield(s, f, t), Nothing)
    case Ticked(now) => OnTick(s, now)
    case Campaigned(now) => OnCampaign(s, now)
  }

  function After(s: State, ins: seq<Input>): State
    decreases |ins|
  {
    if ins == [] then s else After(Apply(s, ins[0]).0, ins[1..])
  }

  /** Nothing below `floor` can be believed again. */
  predicate AtLeast(s: State, floor: nat) {
    floor <= s.seen && (s.held.Some? ==> floor <= s.held.value.term)
  }

  lemma {:induction false} ApplyKeeps(s: State, i: Input, floor: nat)
    requires s.Valid() && OnWire(i) && AtLeast(s, floor)
    ensures Apply(s, i).0.Valid() && AtLeast(Apply(s, i).0, floor)
  {
  }

  lemma {:induction false} AfterKeeps(s: State, ins: seq<Input>, floor: nat)
    requires s.Valid() && AtLeast(s, floor) && forall i :: i in ins ==> OnWire(i)
    ensures After(s, ins).Valid() && AtLeast(After(s, ins), floor)
    decreases |ins|
  {
    if ins != [] {
      ApplyKeeps(s, ins[0], floor);
      AfterKeeps(Apply(s, ins[0]).0, ins[1..], floor);
    }
  }

  /** Over every run from boot: stored TTLs stay in (0, 30 s], and a coordinator believed later never has a
      lower term than one believed earlier, even across expiry, yield and abdication. */
  lemma {:induction false} TermNeverDecreases(me: DeviceId, early: seq<Input>, late: seq<Input>)
    requires forall i :: i in early + late ==> OnWire(i)
    ensures var a := After(New(me), early);
            var b := After(a, late);
            && a.Valid() && b.Valid()
            && (a.held.Some? && b.held.Some? ==> a.held.value.term <= b.held.value.term)
  {
    AfterKeeps(New(me), early, 0);
    var a := After(New(me), early);
    AfterKeeps(a, late, if a.held.Some? then a.held.value.term else 0);
  }

  // ---- Leases only -----------------------------------------------------------------

  /** The (holder, term) pairs among the received leases, whenever they came. */
  function Ranks(ls: seq<(Lease, nat)>): set<(DeviceId, nat)> {
    set l | l in ls :: (l.0.holder, l.0.term)
  }

  /** (holder, term) is one of the pairs and none of them supersedes it. */
  predicate Superior(rs: set<(DeviceId, nat)>, holder: DeviceId, term: nat) {
    (holder, term) in rs && forall r :: r in rs ==> !Supersedes(r.1, r.0, term, holder)
  }

  function Heard(s: State, ls: seq<(Lease, nat)>): State {
    if ls == [] then s
    else OnLease(Heard(s, ls[..|ls| - 1]), ls[|ls| - 1].0, ls[|ls| - 1].1).0
  }

  /** A fresh machine believes the superior lease of all it has heard. */
  lemma {:induction false} LeasesElectSuperior(me: DeviceId, ls: seq<(Lease, nat)>)
    requires ls != []
    ensures Heard(New(me), ls).held.Some?
    ensures Superior(Ranks(ls), Heard(New(me), ls).held.value.holder, Heard(New(me), ls).held.value.term)
  {
    var rest, last := ls[..|ls| - 1], ls[|ls| - 1];
    assert ls == rest + [last];
    assert Ranks(ls) == Ranks(rest) + {(last.0.holder, last.0.term)};
    if rest != [] { LeasesElectSuperior(me, rest); }
  }

  /** That is, one of the highest term, and among those of the lowest id. */
  lemma {:induction false} LeasesElectLowest(me: DeviceId, ls: seq<(Lease, nat)>, l: (Lease, nat))
    requires l in ls
    ensures var h := Heard(New(me), ls).held;
            && h.Some? && (exists m :: m in ls && m.0.holder == h.value.holder && m.0.term == h.value.term)
            && l.0.term <= h.value.term && (l.0.term == h.value.term ==> h.value.holder <= l.0.holder)
  {
    LeasesElectSuperior(me, ls);
    assert (l.0.holder, l.0.term) in Ranks(ls);
  }

  /** The TTL a machine stores: the offered one within (0, 30 s], 6 s for none, 30 s for more; and it runs from now. */
  lemma {:induction false} LeaseIsStored(s: State, lease: Lease, now: nat)
    requires OnLease(s, lease, now).0.held != s.held
    ensures var h := OnLease(s, lease, now).0.held;
            && h.Some? && h.value.holder == lease.holder && h.value.term == lease.term
            && h.value.deadline == now + h.value.ttl
            && h.value.ttl == (if lease.ttl == 0 then 6_000_000_000
                               else if lease.ttl <= 30_000_000_000 then lease.ttl else 30_000_000_000)
  {
  }

  /** What answers a claim: a holder outranked by a higher term, or by a lower id at its own, gives up its lease and
      yields the term it held; otherwise it re-asserts its lease; anyone else says and changes nothing but the terms
      it has seen. */
  lemma {:induction false} ClaimIsAnswered(s: State, candidate: DeviceId, term: nat)
    ensures var (s', e) := OnClaim(s, candidate, term);
            && s'.me == s.me && s'.seen == Max(s.seen, term)
            && (if s.held.None? || s.held.value.holder != s.me then e == Nothing && s'.held == s.held
                else if term > s.held.value.term || (term == s.held.value.term && candidate < s.me)
                then e == Yield(s.me, s.held.value.term) && s'.held == None
                else e == RenewLease(Lease(s.me, s.held.value.term, s.held.value.ttl)) && s'.held == s.held)
  {
  }

  /** The term a message carries. */
  function TermOf(i: Input): nat {
    match i
    case GotLease(l, _) => l.term
    case GotClaim(_, t) => t
    case GotYield(_, t) => t
    case _ => 0
  }

  lemma {:induction false} SeenGrows(s: State, i: Input)
    requires s.Valid() && OnWire(i)
    ensures Apply(s, i).0.seen >= s.seen && Apply(s, i).0.seen >= TermOf(i) && Apply(s, i).0.Valid()
  {
  }

  /** Every term a machine was ever told of is seen, so a campaign is above them all. */
  lemma {:induction false} TermsAreSeen(s: State, ins: seq<Input>, k: nat)
    requires s.Valid() && k < |ins| && forall i :: i in ins ==> OnWire(i)
    ensures After(s, ins).Valid() && TermOf(ins[k]) <= After(s, ins).seen && s.seen <= After(s, ins).seen
    decreases |ins|
  {
    SeenGrows(s, ins[0]);
    var s1 := Apply(s, ins[0]).0;
    if |ins| == 1 {
      assert ins[1..] == [];
    } else {
      TermsAreSeen(s1, ins[1..], if k == 0 then 0 else k - 1);
    }
  }

  lemma {:induction false} CampaignOutTermsAll(s: State, ins: seq<Input>, k: nat, now: nat)
    requires s.Valid() && k < |ins| && (forall i :: i in ins ==> OnWire(i)) && After(s, ins).seen < U64_MAX
    ensures var e := OnCampaign(After(s, ins), now).1; e.Claim? ==> e.candidate == s.me && e.term > TermOf(ins[k])
  {
    TermsAreSeen(s, ins, k);
    MeStays(s, ins);
  }

  lemma {:induction false} MeStays(s: State, ins: seq<Input>)
    ensures After(s, ins).me == s.me
    decreases |ins|
  {
    if ins != [] { MeStays(Apply(s, ins[0]).0, ins[1..]); }
  }

  /** A machine campaigns exactly when it believes in no live coordinator of a lower id than its own; otherwise the
      call leaves no trace. */
  lemma {:induction false} CampaignsIff(s: State, now: nat)
    ensures OnCampaign(s, now).1.Claim? <==>
            s.held.None? || now >= s.held.value.deadline || s.me <= s.held.value.holder
    ensures !OnCampaign(s, now).1.Claim? ==> OnCampaign(s, now) == (s, Nothing)
    ensures OnCampaign(s, now).1.Claim? ==> OnCampaign(s, now).1 == Claim(s.me, Min(s.seen + 1, U64_MAX))
  {
  }

  /** Two machines that heard the same leases, in any order, any number of times and at any times, agree. */
  lemma {:induction false} LeaseOrderIrrelevant(me: DeviceId, ls: seq<(Lease, nat)>,
                                                me': DeviceId, ms: seq<(Lease, nat)>)
    requires ls != [] && ms != [] && Ranks(ls) == Ranks(ms)
    ensures Heard(New(me), ls).held.Some? && Heard(New(me'), ms).held.Some?
    ensures var a, b := Heard(New(me), ls).held.value, Heard(New(me'), ms).held.value;
            a.holder == b.holder && a.term == b.term
  {
    LeasesElectSuperior(me, ls);
    LeasesElectSuperior(me', ms);
  }

  /** Two holders exchange leases: exactly the inferior one yields, with the term it gave up; both then
      believe the superior; and a third machine drops the inferior lease on that yield. */
  lemma {:induction false} PartitionHeals(a: State, b: State, c: State, now: nat)
    requires a.held.Some? && a.held.value.holder == a.me
    requires b.held.Some? && b.held.value.holder == b.me && a.me != b.me
    requires Supersedes(a.held.value.term, a.me, b.held.value.term, b.me)
    requires c.Holds(b.me, b.held.value.term)
    ensures var (a', ea) := OnLease(a, b.held.value.AsLease(), now);
            var (b', eb) := OnLease(b, a.held.value.AsLease(), now);
            && ea == Nothing && eb == Yield(b.me, b.held.value.term)
            && a'.Holds(a.me, a.held.value.term) && b'.Holds(a.me, a.held.value.term)
            && OnYield(c, eb.from, eb.term).held.None?
            && OnYield(a', eb.from, eb.term).held == a'.held
  {
  }

  /** A campaign out-terms all its machine has seen: any other that has seen no more then follows its lease, and a
      machine that held the old lease gives it up by name. */
  lemma {:induction false} CampaignPrevails(a: State, b: State, now: nat, later: nat)
    requires a.Valid() && b.Valid() && a.me != b.me && MayCampaign(a, now)
    requires a.seen < U64_MAX && b.seen <= a.seen
    ensures var a' := OnCampaign(a, now).0;
            && a'.Valid() && a'.Holds(a.me, a.seen + 1) && OnCampaign(a, now).1 == Claim(a.me, a.seen + 1)
            && var (b', e) := OnLease(b, a'.held.value.AsLease(), later);
            && b'.Holds(a.me, a.seen + 1) && later < b'.held.value.deadline
            && (b.held.Some? && b.held.value.holder == b.me ==> e == Yield(b.me, b.held.value.term))
            && OnClaim(b, a.me, a.seen + 1).0.held ==
               (if b.held.Some? && b.held.value.holder == b.me then None else b.held)
  {
  }
}

/** N machines on a network that may lose, duplicate and reorder messages. */
module ElectionNet {
  import opened Common
  import opened Election
  import opened ElectionRuns

  /** Every message ever emitted, with its emitter. */
  datatype Message = Message(from: DeviceId, event: Event)

  datatype Net = Net(nodes: map<DeviceId, State>, sent: set<Message>)

  /** A message input must have been emitted; ticks and campaigns are local. */
  predicate Allowed(w: Net, n: DeviceId, i: Input) {
    && n in w.nodes
    && match i
       case GotLease(l, _) => exists m :: m in w.sent && m.event == RenewLease(l)
       case GotClaim(c, t) => exists m :: m in w.sent && m.event == Claim(c, t)
       case GotYield(f, t) => exists m :: m in w.sent && m.event == Yield(f, t)
       case _ => true
  }

  function Next(w: Net, n: DeviceId, i: Input): Net
    requires n in w.nodes
  {
    var (s, e) := Apply(w.nodes[n], i);
    Net(w.nodes[n := s], if e == Nothing then w.sent else w.sent + {Message(n, e)})
  }

  predicate Runs(w: Net, es: seq<(DeviceId, Input)>)
    decreases |es|
  {
    es == [] || (Allowed(w, es[0].0, es[0].1) && Runs(Next(w, es[0].0, es[0].1), es[1..]))
  }

  function After(w: Net, es: seq<(DeviceId, Input)>): Net
    requires Runs(w, es)
    decreases |es|
  {
    if es == [] then w else After(Next(w, es[0].0, es[0].1), es[1..])
  }

  predicate Fresh(w: Net) { w.sent == {} && forall n :: n in w.nodes ==> w.nodes[n] == New(n) }

  /** `holder` itself emitted a lease at `term`. */
  predicate Leased(w: Net, holder: DeviceId, term: nat) {
    exists m :: m in w.sent && m.from == holder && m.event.RenewLease?
                && m.event.lease.holder == holder && m.event.lease.term == term
  }

  /** Machines speak for themselves, and a believed remote coordinator has leased at that term. */
  predicate Inv(w: Net) {
    && (forall n :: n in w.nodes ==> w.nodes[n].me == n)
    && (forall m :: m in w.sent && m.event.RenewLease? ==> m.event.lease.holder == m.from)
    && (forall n :: n in w.nodes ==> Grounded(w, w.nodes[n]))
  }

  predicate Grounded(w: Net, s: State) {
    s.held.Some? && s.held.value.holder != s.me ==> Leased(w, s.held.value.holder, s.held.value.term)
  }

  lemma {:induction false} NextKeeps(w: Net, n: DeviceId, i: Input)
    requires Inv(w) && Allowed(w, n, i)
    ensures Inv(Next(w, n, i))
  {
    var w' := Next(w, n, i);
    forall k | k in w'.nodes ensures Grounded(w', w'.nodes[k]) {
      assert Grounded(w, w.nodes[k]);
      if k == n { HeldIsOldOrLeased(w, n, i); }
      var s := w'.nodes[k];
      if s.held.Some? && s.held.value.holder != s.me {
        var m :| m in w.sent && m.from == s.held.value.holder && m.event.RenewLease?
                 && m.event.lease.holder == s.held.value.holder && m.event.lease.term == s.held.value.term;
        assert m in w'.sent;
      }
    }
  }

  lemma {:induction false} HeldIsOldOrLeased(w: Net, n: DeviceId, i: Input)
    requires Inv(w) && Allowed(w, n, i)
    ensures Grounded(w, Apply(w.nodes[n], i).0)
  {
    assert Grounded(w, w.nodes[n]);
    if i.GotLease? {
      var m :| m in w.sent && m.event == RenewLease(i.lease);
      assert Leased(w, i.lease.holder, i.lease.term);
    }
  }

  /** In every reachable state a believed remote coordinator traces to a lease it emitted itself at that term. */
  lemma {:induction false} Provenance(w: Net, es: seq<(DeviceId, Input)>)
    requires Inv(w) && Runs(w, es)
    ensures Inv(After(w, es))
    decreases |es|
  {
    if es != [] {
      NextKeeps(w, es[0].0, es[0].1);
      Provenance(Next(w, es[0].0, es[0].1), es[1..]);
    }
  }

  /** So while nobody has leased, no run of claims and yields makes anyone believe in another device. */
  lemma {:induction false} ClaimsInstallNobody(w0: Net, es: seq<(DeviceId, Input)>, n: DeviceId)
    requires Fresh(w0) && Runs(w0, es) && n in After(w0, es).nodes
    requires forall m :: m in After(w0, es).sent ==> !m.event.RenewLease?
    ensures var s := After(w0, es).nodes[n]; s.held.None? || s.held.value.holder == n
  {
    assert Inv(w0);
    Provenance(w0, es);
    assert Grounded(After(w0, es), After(w0, es).nodes[n]);
  }
}
