/**
  The layout register of replicas that exchange changes causally. A change knows the set of changes its author
  had (its past); a register exposes the writes that no other write it holds has in its past.
 */
module LayoutRegister {
  import opened Common
  import opened LayoutCodec

  type Stamp = (nat, DeviceBytes)

  /** Changes are named by creation order; `write` is the stamp a layout edit put, if it was one. */
  datatype Change = Change(past: set<nat>, write: Option<Stamp>)

  /** Every change ever made, and the changes each replica holds. */
  datatype World = World(changes: seq<Change>, replicas: map<nat, set<nat>>)

  datatype Event =
    | EditLayout(replica: nat, editor: DeviceBytes, seen: Stamp)   // `seen` is what the replica resolves to
    | EditOther(replica: nat)
    | Deliver(replica: nat, change: nat)

  predicate IsWrite(w: World, c: nat) { c < |w.changes| && w.changes[c].write.Some? }

  function StampOf(w: World, c: nat): Stamp
    requires IsWrite(w, c)
  {
    w.changes[c].write.value
  }

  predicate Overwritten(w: World, h: set<nat>, c: nat) {
    exists d :: d in h && IsWrite(w, d) && c in w.changes[d].past
  }

  predicate Exposed(w: World, h: set<nat>, c: nat) { c in h && IsWrite(w, c) && !Overwritten(w, h, c) }

  /** What resolving the register of a replica holding `h` gives: the maximum exposed stamp, each clipped to
      the number of changes held, or the zero stamp. */
  ghost predicate Resolves(w: World, h: set<nat>, s: Stamp) {
    && (s == ZeroStamp() || exists c :: Exposed(w, h, c) && s == Clipped(StampOf(w, c), |h|))
    && (forall c :: Exposed(w, h, c) ==> !Below(s, Clipped(StampOf(w, c), |h|)))
  }

  ghost predicate Allowed(w: World, e: Event) {
    && e.replica in w.replicas
    && match e
       case EditLayout(r, editor, seen) =>
         |editor| == ID_LEN && |w.changes| < U64_MAX && Resolves(w, w.replicas[r], seen)
       case EditOther(_) => true
       case Deliver(r, c) => c < |w.changes| && w.changes[c].past <= w.replicas[r]
  }

  function Add(w: World, r: nat, write: Option<Stamp>): World
    requires r in w.replicas
  {
    World(w.changes + [Change(w.replicas[r], write)], w.replicas[r := w.replicas[r] + {|w.changes|}])
  }

  function Next(w: World, e: Event): World
    requires e.replica in w.replicas
  {
    match e
    case EditLayout(r, editor, seen) => Add(w, r, Some((SatAdd64(seen.0, 1), editor)))
    case EditOther(r) => Add(w, r, None)
    case Deliver(r, c) => w.(replicas := w.replicas[r := w.replicas[r] + {c}])
  }

  /** One shared genesis change, held by everyone, writing the zero stamp. */
  predicate Genesis(w: World) {
    w.changes == [Change({}, Some(ZeroStamp()))] && forall r :: r in w.replicas ==> w.replicas[r] == {0}
  }

  // ---- The invariant ---------------------------------------------------------------------------

  /** A set of changes that contains the genesis and the past of everything in it. */
  predicate Closed(w: World, h: set<nat>) {
    0 in h && forall c :: c in h ==> c < |w.changes| && w.changes[c].past <= h
  }

  /** A later change has a closed past of earlier changes; its stamp is above every stamp there, and its
      revision is at most the number of changes there. */
  predicate ChangeInv(w: World, c: nat)
    requires c < |w.changes|
  {
    var past := w.changes[c].past;
    && (forall d :: d in past ==> d < c)
    && (if c == 0 then w.changes[c] == Change({}, Some(ZeroStamp())) else Closed(w, past))
    && (IsWrite(w, c) ==>
          && |StampOf(w, c).1| == ID_LEN && StampOf(w, c).0 <= |past|
          && forall d :: d in past && IsWrite(w, d) ==> Below(StampOf(w, d), StampOf(w, c)))
  }

  predicate Inv(w: World) {
    && |w.changes| > 0
    && (forall c :: 0 <= c < |w.changes| ==> ChangeInv(w, c))
    && (forall r :: r in w.replicas ==> Closed(w, w.replicas[r]))
  }

  // ---- Order ---------------------------------------------------------------------------------------

  lemma {:induction false} Compare(a: Stamp, b: Stamp)
    requires |a.1| == |b.1| == ID_LEN
    ensures Below(a, b) || a == b || Below(b, a)
    ensures !(Below(a, b) && Below(b, a)) && !Below(a, a)
  {
    IdOrderIsNumeric(a.1, b.1);
    IdOrderIsNumeric(b.1, a.1);
    NotBelowSelf(a.1);
  }

  // ---- Resolution is the maximum of the whole history ---------------------------------------------

  lemma {:induction false} CardSubset(a: set<nat>, b: set<nat>)
    requires a <= b
    ensures |a| <= |b|
  {
    if a != b { assert b == a + (b - a); }
  }

  /** The cap never clips a stamp in the history it counts. */
  lemma {:induction false} NeverClipped(w: World, h: set<nat>, c: nat)
    requires Inv(w) && Closed(w, h) && c in h && IsWrite(w, c)
    ensures Clipped(StampOf(w, c), |h|) == StampOf(w, c) && StampOf(w, c).0 < |h|
  {
    assert ChangeInv(w, c);
    var past := w.changes[c].past;
    assert c !in past && past + {c} <= h;
    CardSubset(past + {c}, h);
  }

  /** Every write held is at most some exposed write. */
  lemma {:induction false} Climb(w: World, h: set<nat>, c: nat) returns (top: nat)
    requires Inv(w) && Closed(w, h) && c in h && IsWrite(w, c)
    ensures Exposed(w, h, top) && (StampOf(w, c) == StampOf(w, top) || Below(StampOf(w, c), StampOf(w, top)))
    decreases |w.changes| - c
  {
    if Overwritten(w, h, c) {
      var d :| d in h && IsWrite(w, d) && c in w.changes[d].past;
      assert ChangeInv(w, d);
      top := Climb(w, h, d);
      if StampOf(w, d) != StampOf(w, top) { BelowTrans(StampOf(w, c), StampOf(w, d), StampOf(w, top)); }
    } else {
      top := c;
    }
  }

  /** `s` is the largest stamp any change in `h` wrote. */
  ghost predicate IsMaximum(w: World, h: set<nat>, s: Stamp) {
    && (exists c :: c in h && IsWrite(w, c) && StampOf(w, c) == s)
    && (forall c :: c in h && IsWrite(w, c) ==> !Below(s, StampOf(w, c)))
  }

  lemma {:induction false} ResolvedIsMaximum(w: World, h: set<nat>, s: Stamp)
    requires Inv(w) && Closed(w, h)
    ensures Resolves(w, h, s) <==> IsMaximum(w, h, s)
  {
    assert ChangeInv(w, 0) && IsWrite(w, 0) && StampOf(w, 0) == ZeroStamp();
    if Resolves(w, h, s) { ResolvedImpliesMaximum(w, h, s); }
    if IsMaximum(w, h, s) { MaximumImpliesResolved(w, h, s); }
  }

  lemma {:induction false} ResolvedImpliesMaximum(w: World, h: set<nat>, s: Stamp)
    requires Inv(w) && Closed(w, h) && IsWrite(w, 0) && StampOf(w, 0) == ZeroStamp() && Resolves(w, h, s)
    ensures IsMaximum(w, h, s)
  {
    if s != ZeroStamp() {
      var c :| Exposed(w, h, c) && s == Clipped(StampOf(w, c), |h|);
      NeverClipped(w, h, c);
    }
    forall c | c in h && IsWrite(w, c) ensures !Below(s, StampOf(w, c)) {
      var top := Climb(w, h, c);
      NeverClipped(w, h, top);
      if Below(s, StampOf(w, c)) && StampOf(w, c) != StampOf(w, top) {
        BelowTrans(s, StampOf(w, c), StampOf(w, top));
      }
    }
  }

  lemma {:induction false} MaximumImpliesResolved(w: World, h: set<nat>, s: Stamp)
    requires Inv(w) && Closed(w, h) && IsMaximum(w, h, s)
    ensures Resolves(w, h, s)
  {
    forall c | Exposed(w, h, c) ensures !Below(s, Clipped(StampOf(w, c), |h|)) { NeverClipped(w, h, c); }
    var c :| c in h && IsWrite(w, c) && StampOf(w, c) == s;
    var top := Climb(w, h, c);
    NeverClipped(w, h, top);
    assert StampOf(w, top) == s;
  }

  /** At most one stamp resolves a history, so replicas holding the same changes report the same revision and editor. */
  lemma {:induction false} SameChangesSameLayout(w: World, h: set<nat>, s: Stamp, s': Stamp)
    requires Inv(w) && Closed(w, h) && Resolves(w, h, s) && Resolves(w, h, s')
    ensures s == s'
  {
    ResolvedIsMaximum(w, h, s);
    ResolvedIsMaximum(w, h, s');
    var c :| c in h && IsWrite(w, c) && StampOf(w, c) == s;
    var c' :| c' in h && IsWrite(w, c') && StampOf(w, c') == s';
    assert ChangeInv(w, c) && ChangeInv(w, c');
    Compare(s, s');
  }

  /** A maximum of one part that is not below the maximum of the other is the maximum of both. */
  lemma {:induction false} LargerIsMaximum(w: World, g: set<nat>, h: set<nat>, s: Stamp, m: Stamp)
    requires Inv(w) && Closed(w, g) && Closed(w, h) && IsMaximum(w, g, s) && IsMaximum(w, h, m)
    requires s == m || Below(s, m)
    ensures IsMaximum(w, g + h, m)
  {
    forall d | d in g + h && IsWrite(w, d) ensures !Below(m, StampOf(w, d)) {
      if d in g && Below(s, m) && Below(m, StampOf(w, d)) { BelowTrans(s, m, StampOf(w, d)); }
    }
    var c :| c in h && IsWrite(w, c) && StampOf(w, c) == m;
    assert c in g + h;
  }

  /** Merging two replicas resolves to the larger of what each resolved to. */
  lemma {:induction false} MergeTakesLarger(w: World, g: set<nat>, h: set<nat>, s: Stamp, s': Stamp)
    requires Inv(w) && Closed(w, g) && Closed(w, h) && Resolves(w, g, s) && Resolves(w, h, s')
    ensures Closed(w, g + h) && Resolves(w, g + h, if Below(s, s') then s' else s)
  {
    ResolvedIsMaximum(w, g, s);
    ResolvedIsMaximum(w, h, s');
    var c :| c in g && IsWrite(w, c) && StampOf(w, c) == s;
    var c' :| c' in h && IsWrite(w, c') && StampOf(w, c') == s';
    assert ChangeInv(w, c) && ChangeInv(w, c');
    Compare(s, s');
    if Below(s, s') {
      LargerIsMaximum(w, g, h, s, s');
    } else {
      LargerIsMaximum(w, h, g, s', s);
      assert h + g == g + h;
    }
    ResolvedIsMaximum(w, g + h, if Below(s, s') then s' else s);
  }

  // ---- Every reachable world ------------------------------------------------------------------------

  /** Appending a change leaves earlier changes and closed sets as they were. */
  lemma {:induction false} Grows(w: World, w': World, x: Change)
    requires w'.changes == w.changes + [x]
    ensures forall c: nat :: c < |w.changes| ==> IsWrite(w', c) == IsWrite(w, c)
    ensures forall h :: Closed(w, h) ==> Closed(w', h)
  {
  }

  lemma {:induction false} OldChangeKeeps(w: World, w': World, x: Change, c: nat)
    requires w'.changes == w.changes + [x] && c < |w.changes| && ChangeInv(w, c)
    ensures ChangeInv(w', c)
  {
    Grows(w, w', x);
  }

  lemma {:induction false} AddKeeps(w: World, r: nat, write: Option<Stamp>)
    requires Inv(w) && r in w.replicas
    requires write.Some? ==>
               && |write.value.1| == ID_LEN && write.value.0 <= |w.replicas[r]|
               && forall d :: d in w.replicas[r] && IsWrite(w, d) ==> Below(StampOf(w, d), write.value)
    ensures Inv(Add(w, r, write))
  {
    var w' := Add(w, r, write);
    var n, h := |w.changes|, w.replicas[r];
    Grows(w, w', Change(h, write));
    assert Closed(w, h) && Closed(w', h);
    forall c | 0 <= c < |w'.changes| ensures ChangeInv(w', c) {
      if c < n { OldChangeKeeps(w, w', Change(h, write), c); }
    }
    forall q | q in w'.replicas ensures Closed(w', w'.replicas[q]) {
      if q != r { assert Closed(w, w.replicas[q]); }
    }
  }

  /** An edit mints a stamp above everything its author had seen, and not above the number of changes held. */
  lemma {:induction false} MintIsAbove(w: World, r: nat, editor: DeviceBytes, seen: Stamp)
    requires Inv(w) && Allowed(w, EditLayout(r, editor, seen)) && |w.replicas[r]| < U64_MAX
    ensures SatAdd64(seen.0, 1) <= |w.replicas[r]|
    ensures forall d :: d in w.replicas[r] && IsWrite(w, d) ==> Below(StampOf(w, d), (SatAdd64(seen.0, 1), editor))
  {
    var h := w.replicas[r];
    ResolvedIsMaximum(w, h, seen);
    var c :| c in h && IsWrite(w, c) && StampOf(w, c) == seen;
    NeverClipped(w, h, c);
    forall d | d in h && IsWrite(w, d) ensures StampOf(w, d).0 <= seen.0 {}
  }

  lemma {:induction false} HeldIsBounded(h: set<nat>, n: nat)
    requires forall c :: c in h ==> c < n
    ensures |h| <= n
  {
    if n > 0 {
      HeldIsBounded(h - {n - 1}, n - 1);
      if n - 1 in h { assert h == (h - {n - 1}) + {n - 1}; } else { assert h - {n - 1} == h; }
    } else {
      assert h == {};
    }
  }

  lemma {:induction false} NextKeeps(w: World, e: Event)
    requires Inv(w) && Allowed(w, e)
    ensures Inv(Next(w, e))
  {
    match e {
      case EditLayout(r, editor, seen) =>
        assert Closed(w, w.replicas[r]);
        HeldIsBounded(w.replicas[r], |w.changes|);
        MintIsAbove(w, r, editor, seen);
        AddKeeps(w, r, Some((SatAdd64(seen.0, 1), editor)));
      case EditOther(r) => AddKeeps(w, r, None);
      case Deliver(r, c) =>
        assert ChangeInv(w, c);
        forall q | q in w.replicas ensures Closed(Next(w, e), Next(w, e).replicas[q]) {
          assert Closed(w, w.replicas[q]);
        }
        forall d | 0 <= d < |w.changes| ensures ChangeInv(Next(w, e), d) { assert ChangeInv(w, d); }
    }
  }

  ghost predicate Runs(w: World, es: seq<Event>)
    decreases |es|
  {
    es == [] || (Allowed(w, es[0]) && Runs(Next(w, es[0]), es[1..]))
  }

  ghost function After(w: World, es: seq<Event>): World
    requires Runs(w, es)
    decreases |es|
  {
    if es == [] then w else After(Next(w, es[0]), es[1..])
  }

  lemma {:induction false} RunKeeps(w: World, es: seq<Event>)
    requires Inv(w) && Runs(w, es)
    ensures Inv(After(w, es))
    decreases |es|
  {
    if es != [] {
      NextKeeps(w, es[0]);
      RunKeeps(Next(w, es[0]), es[1..]);
    }
  }

  /** In every reachable world, what a replica resolves to is the largest stamp in its whole history. */
  lemma {:induction false} ReplicasReportTheMaximum(w0: World, es: seq<Event>, r: nat, s: Stamp)
    requires Genesis(w0) && Runs(w0, es) && r in After(w0, es).replicas
    ensures Resolves(After(w0, es), After(w0, es).replicas[r], s) <==>
            IsMaximum(After(w0, es), After(w0, es).replicas[r], s)
  {
    GenesisInv(w0);
    RunKeeps(w0, es);
    ResolvedIsMaximum(After(w0, es), After(w0, es).replicas[r], s);
  }

  /** Right after an edit its author reports that edit: one revision above what it saw, under its own name. */
  lemma {:induction false} EditIsReported(w: World, r: nat, editor: DeviceBytes, seen: Stamp)
    requires Inv(w) && Allowed(w, EditLayout(r, editor, seen))
    ensures var w' := Next(w, EditLayout(r, editor, seen));
            r in w'.replicas && Resolves(w', w'.replicas[r], (seen.0 + 1, editor))
  {
    var w' := Next(w, EditLayout(r, editor, seen));
    var (h, stamp, made) := (w.replicas[r], (SatAdd64(seen.0, 1), editor), |w.changes|);
    NextKeeps(w, EditLayout(r, editor, seen));
    assert Closed(w, h);
    HeldIsBounded(h, |w.changes|);
    MintIsAbove(w, r, editor, seen);
    assert stamp == (seen.0 + 1, editor);
    assert IsWrite(w', made) && StampOf(w', made) == stamp && made in w'.replicas[r];
    NotBelowSelf(editor);
    forall d | d in w'.replicas[r] && IsWrite(w', d) ensures !Below(stamp, StampOf(w', d)) {
      if d != made {
        assert w'.changes[d] == w.changes[d] && IsWrite(w, d) && Below(StampOf(w, d), stamp);
        assert ChangeInv(w, d);
        Compare(StampOf(w, d), stamp);
      }
    }
    assert IsMaximum(w', w'.replicas[r], stamp);
    ResolvedIsMaximum(w', w'.replicas[r], stamp);
  }

  /** A delivered edit counts: the replica then reports nothing below it, and keeps what it held. */
  lemma {:induction false} DeliveryCounts(w: World, r: nat, c: nat, s: Stamp)
    requires Inv(w) && Allowed(w, Deliver(r, c)) && IsWrite(w, c)
    requires Resolves(Next(w, Deliver(r, c)), Next(w, Deliver(r, c)).replicas[r], s)
    ensures !Below(s, StampOf(w, c)) && w.replicas[r] + {c} == Next(w, Deliver(r, c)).replicas[r]
  {
    NextKeeps(w, Deliver(r, c));
    var w' := Next(w, Deliver(r, c));
    assert Closed(w', w'.replicas[r]);
    ResolvedIsMaximum(w', w'.replicas[r], s);
    assert c in w'.replicas[r] && IsWrite(w', c) && StampOf(w', c) == StampOf(w, c);
  }

  lemma {:induction false} GenesisInv(w: World)
    requires Genesis(w)
    ensures Inv(w)
  {
    assert ChangeInv(w, 0);
  }

  // ---- From the strings the register holds ------------------------------------------------------------

  function KeyOf(w: World, c: nat): string
    requires IsWrite(w, c)
  {
    LwwKey(StampOf(w, c).0, StampOf(w, c).1)
  }

  /** `values` lists the exposed stamps as strings, in any order and any number of times. */
  ghost predicate Lists(w: World, h: set<nat>, values: seq<string>) {
    && (forall v :: v in values ==> exists c :: Exposed(w, h, c) && v == KeyOf(w, c))
    && (forall c :: Exposed(w, h, c) ==> KeyOf(w, c) in values)
  }

  lemma {:induction false} ExposedDecodes(w: World, h: set<nat>, c: nat)
    requires Inv(w) && Closed(w, h) && |h| <= U64_MAX && Exposed(w, h, c)
    ensures DecodeLww(KeyOf(w, c)) == Some(StampOf(w, c))
  {
    assert ChangeInv(w, c);
    NeverClipped(w, h, c);
    DecodeEncoded(StampOf(w, c).0, StampOf(w, c).1);
  }

  lemma {:induction false} BestIsExposed(w: World, h: set<nat>, values: seq<string>, i: nat) returns (c: nat)
    requires Inv(w) && Closed(w, h) && |h| <= U64_MAX && Lists(w, h, values) && i < |values|
    ensures Exposed(w, h, c) && DecodeLww(values[i]) == Some(StampOf(w, c))
  {
    assert values[i] in values;
    c :| Exposed(w, h, c) && values[i] == KeyOf(w, c);
    ExposedDecodes(w, h, c);
  }

  lemma {:induction false} ExposedIsListed(w: World, h: set<nat>, values: seq<string>, c: nat) returns (i: nat)
    requires Inv(w) && Closed(w, h) && |h| <= U64_MAX && Lists(w, h, values) && Exposed(w, h, c)
    ensures i < |values| && DecodeLww(values[i]) == Some(StampOf(w, c))
  {
    i :| 0 <= i < |values| && values[i] == KeyOf(w, c);
    ExposedDecodes(w, h, c);
  }

  /** The loop over those strings computes the resolution. */
  lemma {:induction false} LoopResolves(w: World, h: set<nat>, values: seq<string>, best: Stamp)
    requires Inv(w) && Closed(w, h) && |h| <= U64_MAX && Lists(w, h, values) && IsBest(values, |h|, best)
    ensures Resolves(w, h, best)
  {
    if best != ZeroStamp() {
      var i :| 0 <= i < |values| && DecodeLww(values[i]).Some? && best == Clipped(DecodeLww(values[i]).value, |h|);
      var c := BestIsExposed(w, h, values, i);
    }
    forall c | Exposed(w, h, c) ensures !Below(best, Clipped(StampOf(w, c), |h|)) {
      var i := ExposedIsListed(w, h, values, c);
    }
  }
}
