/** Echo suppression over whole runs: what was applied is not offered back. */
module ClipEcho {
  import opened Common
  import opened ClipCanonical
  import opened ClipReassembly
  import opened ClipTracking
  import opened ClipEngine
  import opened ClipSync

  // ---- What a run considers, offers and applies ------------------------------------------------

  predicate IsCopy(rep: LocalRepr, f: ClipFormat, h: Hash, sha: Sha) {
    rep.format == f && ContentHash(rep.format, rep.bytes, sha) == h
  }

  /** How many of the representations are (f, h). */
  function Copies(reps: seq<LocalRepr>, f: ClipFormat, h: Hash, sha: Sha): nat {
    if reps == [] then 0
    else Copies(reps[..|reps| - 1], f, h, sha) + (if IsCopy(reps[|reps| - 1], f, h, sha) then 1 else 0)
  }

  /** How many of the offered entries are (f, h). */
  function Listings(xs: seq<Entry>, f: ClipFormat, h: Hash): nat {
    if xs == [] then 0
    else
      var x := xs[|xs| - 1];
      Listings(xs[..|xs| - 1], f, h) + (if x.format == f && x.hash == h then 1 else 0)
  }

  /** Representations of (f, h) that an input puts up for offering; none while a gate is closed. */
  function Considered(e: Engine, i: Input, f: ClipFormat, h: Hash, sha: Sha): nat {
    if i.LocalChanged? && e.settings.CanOffer() && e.settings.FormatEnabled(f) then Copies(i.reps, f, h, sha) else 0
  }

  /** Those that end up in the offer. */
  function Offered(e: Engine, i: Input, f: ClipFormat, h: Hash, sha: Sha): nat {
    if i.LocalChanged? && OnLocalChange(e, i.reps, sha).1.Some?
    then Listings(OnLocalChange(e, i.reps, sha).1.value.entries, f, h) else 0
  }

  /** The clip an input applies, if any. */
  function ClipOf(e: Engine, i: Input, sha: Sha): Option<AppliedClip> {
    if i.GotData? && OnDataFrom(e, i.origin, i.d, sha).1.Ok? then OnDataFrom(e, i.origin, i.d, sha).1.value else None
  }

  function Applied(e: Engine, i: Input, f: ClipFormat, h: Hash, sha: Sha): nat {
    var clip := ClipOf(e, i, sha);
    if clip.Some? && clip.value.format == f && sha(clip.value.bytes) == h then 1 else 0
  }

  /** Over a run: representations of (f, h) considered, offered, and clips of (f, h) applied. */
  datatype Tally = Tally(considered: nat, offered: nat, applied: nat)

  function Tallied(e: Engine, ins: seq<Input>, f: ClipFormat, h: Hash, sha: Sha): Tally
    decreases |ins|
  {
    if ins == [] then Tally(0, 0, 0)
    else
      var rest := Tallied(Apply(e, ins[0], sha), ins[1..], f, h, sha);
      Tally(Considered(e, ins[0], f, h, sha) + rest.considered, Offered(e, ins[0], f, h, sha) + rest.offered,
            Applied(e, ins[0], f, h, sha) + rest.applied)
  }

  /** Clips of any kind applied over a run. */
  function Applies(e: Engine, ins: seq<Input>, sha: Sha): nat
    decreases |ins|
  {
    if ins == [] then 0
    else (if ClipOf(e, ins[0], sha).Some? then 1 else 0) + Applies(Apply(e, ins[0], sha), ins[1..], sha)
  }

  // ---- Every pull expects the hash it is filed under ---------------------------------------------

  predicate Keyed(t: Table) {
    forall k :: k in t.entries ==> t.entries[k].key == k && t.entries[k].reasm.hash == k.hash
  }

  lemma {:induction false} KeyedInserted(t: Table, p: Pull)
    requires Keyed(t) && p.reasm.hash == p.key.hash
    ensures Keyed(Inserted(t, p))
  {
  }

  lemma {:induction false} KeyedOffer(e: Engine, offer: Offer, peerOs: Os)
    requires Keyed(e.pending)
    ensures Keyed(OnOffer(e, offer, peerOs).0.pending)
  {
    var best := BestEntry(e.settings, offer.entries);
    if best.Some? {
      var (o, x) := (offer.origin, offer.entries[best.value]);
      KeyedInserted(Without(e.pending, Superseded(e.pending, o, Advertised(o, offer.entries))),
                    NewPull(PullKey(o, x.format, x.hash), x.size, peerOs, e.now));
    }
  }

  lemma {:induction false} KeyedChunk(e: Engine, key: PullKey, d: Data, sha: Sha)
    requires Keyed(e.pending) && key in e.pending.entries
    ensures Keyed(OnKeyedData(e, key, d, sha).0.pending)
  {
  }

  lemma {:induction false} KeyedData(e: Engine, origin: DeviceBytes, d: Data, sha: Sha)
    requires Keyed(e.pending)
    ensures Keyed(OnDataFrom(e, origin, d, sha).0.pending)
  {
    var key := PullKey(origin, d.format, d.hash);
    if key in e.pending.entries { KeyedChunk(e, key, d, sha); }
  }

  lemma {:induction false} KeyedStays(e: Engine, i: Input, sha: Sha)
    requires Keyed(e.pending)
    ensures Keyed(Apply(e, i, sha).pending)
  {
    match i {
      case GotOffer(offer, os) => KeyedOffer(e, offer, os);
      case GotData(origin, d) => KeyedData(e, origin, d, sha);
      case _ =>
    }
  }

  lemma {:induction false} KeyedAfter(e: Engine, ins: seq<Input>, sha: Sha)
    requires Keyed(e.pending)
    ensures Keyed(After(e, ins, sha).pending)
    decreases |ins|
  {
    if ins != [] {
      KeyedStays(e, ins[0], sha);
      KeyedAfter(Apply(e, ins[0], sha), ins[1..], sha);
    }
  }

  ghost predicate Reachable(e: Engine, sha: Sha) {
    exists deviceId, os, settings, ins :: e == After(NewEngine(deviceId, os, settings), ins, sha)
  }

  lemma {:induction false} ReachableKeyed(e: Engine, sha: Sha)
    requires Reachable(e, sha)
    ensures Keyed(e.pending)
  {
    var deviceId, os, settings, ins :| e == After(NewEngine(deviceId, os, settings), ins, sha);
    KeyedAfter(NewEngine(deviceId, os, settings), ins, sha);
  }

  /** An applied clip leaves a fresh marker for its own format and hash. */
  lemma {:induction false} ApplyRecords(e: Engine, origin: DeviceBytes, d: Data, sha: Sha)
    requires Keyed(e.pending)
    ensures var (e', r) := OnDataFrom(e, origin, d, sha);
            if r.Ok? && r.value.Some?
            then e'.applied == Recorded(e.applied, PullKey(origin, r.value.value.format, sha(r.value.value.bytes)))
            else e'.applied == e.applied
  {
  }

  // ---- Live markers --------------------------------------------------------------------------------

  function Live(log: seq<Marker>, f: ClipFormat, h: Hash): nat {
    if log == [] then 0
    else Live(log[..|log| - 1], f, h) + (if log[|log| - 1].Answers(f, h) then 1 else 0)
  }

  lemma {:induction false} OthersLive(log: seq<Marker>, key: PullKey, f: ClipFormat, h: Hash)
    ensures Live(Others(log, key), f, h) <= Live(log, f, h)
  {
    if log != [] {
      var init, last := log[..|log| - 1], log[|log| - 1];
      OthersLive(init, key, f, h);
      if last.key != key {
        var kept := Others(init, key) + [last];
        assert kept[..|kept| - 1] == Others(init, key);
      }
    }
  }

  lemma {:induction false} SuffixLive(log: seq<Marker>, n: nat, f: ClipFormat, h: Hash)
    requires n <= |log|
    ensures Live(log[n..], f, h) <= Live(log, f, h)
  {
    if n < |log| {
      assert log[n..][..|log[n..]| - 1] == log[..|log| - 1][n..];
      SuffixLive(log[..|log| - 1], n, f, h);
    }
  }

  lemma {:induction false} FlipLive(log: seq<Marker>, i: nat, f: ClipFormat, h: Hash)
    requires i < |log| && log[i].live
    ensures Live(log[i := log[i].(live := false)], f, h) + (if log[i].Answers(f, h) then 1 else 0) == Live(log, f, h)
  {
    var flipped := log[i := log[i].(live := false)];
    if i < |log| - 1 {
      assert flipped[..|log| - 1] == log[..|log| - 1][i := log[i].(live := false)];
      FlipLive(log[..|log| - 1], i, f, h);
    } else {
      assert flipped[..|log| - 1] == log[..|log| - 1];
    }
  }

  lemma {:induction false} RecordLive(log: seq<Marker>, key: PullKey, f: ClipFormat, h: Hash)
    ensures Live(Recorded(log, key), f, h) <= Live(log, f, h) + (if key.format == f && key.hash == h then 1 else 0)
  {
    var others := Others(log, key);
    var kept := Newest(others, MAX_APPLIED_CLIPS - 1);
    OthersLive(log, key, f, h);
    if kept != others { SuffixLive(others, |others| - (MAX_APPLIED_CLIPS - 1), f, h); }
    assert Recorded(log, key)[..|kept|] == kept;
  }

  /** Suppressing uses up one live marker of its own kind, and none of another. */
  lemma {:induction false} SuppressLive(log: seq<Marker>, f': ClipFormat, h': Hash, f: ClipFormat, h: Hash)
    ensures var (log', hit) := Suppressed(log, f', h');
            Live(log', f, h) + (if hit && f' == f && h' == h then 1 else 0) == Live(log, f, h)
  {
    var i := FirstAnswer(log, f', h', 0);
    if i < |log| { FlipLive(log, i, f, h); }
  }

  /** Each copy considered is either offered or uses up a live marker. */
  lemma {:induction false} OfferingLive(s: Settings, log: seq<Marker>, reps: seq<LocalRepr>, sha: Sha,
                                       f: ClipFormat, h: Hash)
    ensures var (log', xs) := Offering(s, log, reps, sha);
            var n := if s.FormatEnabled(f) then Copies(reps, f, h, sha) else 0;
            n + Live(log', f, h) == Listings(xs, f, h) + Live(log, f, h) && Listings(xs, f, h) <= n
  {
    if reps != [] {
      var init, rep := reps[..|reps| - 1], reps[|reps| - 1];
      OfferingLive(s, log, init, sha, f, h);
      var (l, xs) := Offering(s, log, init, sha);
      var hash := ContentHash(rep.format, rep.bytes, sha);
      SuppressLive(l, rep.format, hash, f, h);
      ListingsAppend(xs, Entry(rep.format, hash, |Canonical(rep.format, rep.bytes)|), f, h);
    }
  }

  lemma {:induction false} ListingsAppend(xs: seq<Entry>, x: Entry, f: ClipFormat, h: Hash)
    ensures Listings(xs + [x], f, h) == Listings(xs, f, h) + (if x.format == f && x.hash == h then 1 else 0)
  {
    assert (xs + [x])[..|xs|] == xs;
  }

  lemma {:induction false} InputBalances(e: Engine, i: Input, f: ClipFormat, h: Hash, sha: Sha)
    requires Keyed(e.pending)
    ensures Offered(e, i, f, h, sha) <= Considered(e, i, f, h, sha)
    ensures Considered(e, i, f, h, sha) + Live(Apply(e, i, sha).applied, f, h) <=
            Offered(e, i, f, h, sha) + Applied(e, i, f, h, sha) + Live(e.applied, f, h)
  {
    match i {
      case LocalChanged(reps) => OfferingLive(e.settings, e.applied, reps, sha, f, h);
      case GotData(origin, d) =>
        ApplyRecords(e, origin, d, sha);
        var clip := ClipOf(e, i, sha);
        if clip.Some? { RecordLive(e.applied, PullKey(origin, clip.value.format, sha(clip.value.bytes)), f, h); }
      case _ =>
    }
  }

  lemma {:induction false} RunBalances(e: Engine, ins: seq<Input>, f: ClipFormat, h: Hash, sha: Sha)
    requires Keyed(e.pending)
    ensures var t := Tallied(e, ins, f, h, sha);
            && t.offered <= t.considered
            && t.considered + Live(After(e, ins, sha).applied, f, h) <= t.offered + t.applied + Live(e.applied, f, h)
    decreases |ins|
  {
    if ins != [] {
      KeyedStays(e, ins[0], sha);
      InputBalances(e, ins[0], f, h, sha);
      RunBalances(Apply(e, ins[0], sha), ins[1..], f, h, sha);
    }
  }

  /** Over every run of a new engine, for each (format, hash): the copies it withheld from its offers as echoes
      are at most the clips of that (format, hash) it applied. */
  lemma {:induction false} EchoesNeverExceedApplies(deviceId: DeviceBytes, os: Os, settings: Settings,
                                                   ins: seq<Input>, f: ClipFormat, h: Hash, sha: Sha)
    ensures var t := Tallied(NewEngine(deviceId, os, settings), ins, f, h, sha);
            0 <= t.considered - t.offered <= t.applied
  {
    RunBalances(NewEngine(deviceId, os, settings), ins, f, h, sha);
  }

  // ---- The first echo --------------------------------------------------------------------------------

  /** A live marker for (f, h) among the `n` newest entries. */
  predicate LiveWithin(log: seq<Marker>, f: ClipFormat, h: Hash, n: nat) {
    exists i :: 0 <= i < |log| && |log| - i <= n && log[i].Answers(f, h)
  }

  lemma {:induction false} OthersWithin(log: seq<Marker>, key: PullKey, f: ClipFormat, h: Hash, n: nat)
    requires LiveWithin(log, f, h, n) && !(key.format == f && key.hash == h)
    ensures LiveWithin(Others(log, key), f, h, n)
  {
    var i :| 0 <= i < |log| && |log| - i <= n && log[i].Answers(f, h);
    var init, last := log[..|log| - 1], log[|log| - 1];
    if i == |log| - 1 {
      var kept := Others(log, key);
      assert kept[|kept| - 1] == last;
    } else {
      assert init[i] == log[i];
      OthersWithin(init, key, f, h, n - 1);
      var kept := Others(init, key);
      var j :| 0 <= j < |kept| && |kept| - j <= n - 1 && kept[j].Answers(f, h);
      assert Others(log, key)[j].Answers(f, h);
    }
  }

  lemma {:induction false} RecordedWithin(log: seq<Marker>, key: PullKey, f: ClipFormat, h: Hash, n: nat)
    requires LiveWithin(log, f, h, n) && n < MAX_APPLIED_CLIPS
    ensures LiveWithin(Recorded(log, key), f, h, n + 1)
  {
    var out := Recorded(log, key);
    if key.format == f && key.hash == h {
      assert out[|out| - 1].Answers(f, h);
    } else {
      OthersWithin(log, key, f, h, n);
      var others := Others(log, key);
      var i :| 0 <= i < |others| && |others| - i <= n && others[i].Answers(f, h);
      var drop := |others| - |Newest(others, MAX_APPLIED_CLIPS - 1)|;
      assert out[i - drop] == others[i];
    }
  }

  lemma {:induction false} SuppressedWithin(log: seq<Marker>, f': ClipFormat, h': Hash, f: ClipFormat, h: Hash, n: nat)
    requires LiveWithin(log, f, h, n) && !(f' == f && h' == h)
    ensures LiveWithin(Suppressed(log, f', h').0, f, h, n)
  {
    var i :| 0 <= i < |log| && |log| - i <= n && log[i].Answers(f, h);
    assert Suppressed(log, f', h').0[i] == log[i];
  }

  /** A change that considers no copy of (f, h) leaves its marker live. */
  lemma {:induction false} OfferingWithin(s: Settings, log: seq<Marker>, reps: seq<LocalRepr>, sha: Sha,
                                         f: ClipFormat, h: Hash, n: nat)
    requires LiveWithin(log, f, h, n) && (s.FormatEnabled(f) ==> Copies(reps, f, h, sha) == 0)
    ensures LiveWithin(Offering(s, log, reps, sha).0, f, h, n)
  {
    if reps != [] {
      var init, rep := reps[..|reps| - 1], reps[|reps| - 1];
      OfferingWithin(s, log, init, sha, f, h, n);
      if s.FormatEnabled(rep.format) {
        SuppressedWithin(Offering(s, log, init, sha).0, rep.format, ContentHash(rep.format, rep.bytes, sha), f, h, n);
      }
    }
  }

  lemma {:induction false} InputWithin(e: Engine, i: Input, sha: Sha, f: ClipFormat, h: Hash, n: nat)
    requires Keyed(e.pending) && LiveWithin(e.applied, f, h, n) && Considered(e, i, f, h, sha) == 0
    requires n < MAX_APPLIED_CLIPS || ClipOf(e, i, sha).None?
    ensures LiveWithin(Apply(e, i, sha).applied, f, h, n + (if ClipOf(e, i, sha).Some? then 1 else 0))
  {
    match i {
      case LocalChanged(reps) =>
        if e.settings.CanOffer() { OfferingWithin(e.settings, e.applied, reps, sha, f, h, n); }
      case GotData(origin, d) =>
        ApplyRecords(e, origin, d, sha);
        var clip := ClipOf(e, i, sha);
        if clip.Some? {
          RecordedWithin(e.applied, PullKey(origin, clip.value.format, sha(clip.value.bytes)), f, h, n);
        }
      case _ =>
    }
  }

  /** Through any inputs that consider no copy of it, a marker outlives fewer than 128 applies. */
  lemma {:induction false} MarkerSurvives(e: Engine, ins: seq<Input>, sha: Sha, f: ClipFormat, h: Hash, n: nat)
    requires Keyed(e.pending) && LiveWithin(e.applied, f, h, n)
    requires Tallied(e, ins, f, h, sha).considered == 0 && n + Applies(e, ins, sha) <= MAX_APPLIED_CLIPS
    ensures LiveWithin(After(e, ins, sha).applied, f, h, n + Applies(e, ins, sha))
    decreases |ins|
  {
    if ins != [] {
      var more := if ClipOf(e, ins[0], sha).Some? then 1 else 0;
      InputWithin(e, ins[0], sha, f, h, n);
      KeyedStays(e, ins[0], sha);
      MarkerSurvives(Apply(e, ins[0], sha), ins[1..], sha, f, h, n + more);
    }
  }

  /** With a live marker, the first copy among the representations adds nothing to the offer. */
  lemma {:induction false} FirstCopyIsEcho(s: Settings, log: seq<Marker>, reps: seq<LocalRepr>, i: nat, sha: Sha,
                                          f: ClipFormat, h: Hash, n: nat)
    requires LiveWithin(log, f, h, n) && s.FormatEnabled(f)
    requires i < |reps| && IsCopy(reps[i], f, h, sha) && Copies(reps[..i], f, h, sha) == 0
    ensures Offering(s, log, reps[..i + 1], sha).1 == Offering(s, log, reps[..i], sha).1
  {
    assert reps[..i + 1][..i] == reps[..i];
    OfferingWithin(s, log, reps[..i], sha, f, h, n);
    var l := Offering(s, log, reps[..i], sha).0;
    var k :| 0 <= k < |l| && l[k].Answers(f, h);
    assert FirstAnswer(l, f, h, 0) <= k;
  }

  lemma {:induction false} OfferingUnfolds(s: Settings, log: seq<Marker>, reps: seq<LocalRepr>, sha: Sha)
    requires reps != []
    ensures var (xs, ys) := (Offering(s, log, reps[..|reps| - 1], sha).1, Offering(s, log, reps, sha).1);
            ys == xs || ys == xs + [EntryOf(reps[|reps| - 1], sha)]
  {
  }

  lemma {:induction false} OfferingStep(s: Settings, log: seq<Marker>, reps: seq<LocalRepr>, sha: Sha,
                                       f: ClipFormat, h: Hash)
    requires reps != []
    ensures Listings(Offering(s, log, reps, sha).1, f, h) <=
            Listings(Offering(s, log, reps[..|reps| - 1], sha).1, f, h)
            + (if IsCopy(reps[|reps| - 1], f, h, sha) then 1 else 0)
  {
    var xs := Offering(s, log, reps[..|reps| - 1], sha).1;
    OfferingUnfolds(s, log, reps, sha);
    ListingsAppend(xs, EntryOf(reps[|reps| - 1], sha), f, h);
  }

  /** A copy that adds nothing leaves the offer short of it. */
  lemma {:induction false} OfferingShort(s: Settings, log: seq<Marker>, reps: seq<LocalRepr>, i: nat, sha: Sha,
                                        f: ClipFormat, h: Hash)
    requires i < |reps| && s.FormatEnabled(f) && IsCopy(reps[i], f, h, sha)
    requires Offering(s, log, reps[..i + 1], sha).1 == Offering(s, log, reps[..i], sha).1
    ensures Listings(Offering(s, log, reps, sha).1, f, h) < Copies(reps, f, h, sha)
  {
    var init := reps[..|reps| - 1];
    if i == |reps| - 1 {
      assert reps[..i + 1] == reps;
      OfferingLive(s, log, init, sha, f, h);
    } else {
      assert init[..i + 1] == reps[..i + 1] && init[..i] == reps[..i];
      OfferingShort(s, log, init, i, sha, f, h);
      OfferingStep(s, log, reps, sha, f, h);
    }
  }

  /** From `e` the data `d` applied the clip, giving `e1`; then `ins`, with fewer than 128 further applies and no copy
      of the clip put up for offering, led to `e2`, which may offer the clip's format. */
  ghost predicate AwaitsEcho(e: Engine, origin: DeviceBytes, d: Data, clip: AppliedClip, e1: Engine,
                             ins: seq<Input>, e2: Engine, sha: Sha)
  {
    && Reachable(e, sha) && OnDataFrom(e, origin, d, sha) == (e1, Ok(Some(clip))) && e2 == After(e1, ins, sha)
    && Tallied(e1, ins, clip.format, sha(clip.bytes), sha).considered == 0
    && Applies(e1, ins, sha) < MAX_APPLIED_CLIPS
    && e2.settings.CanOffer() && e2.settings.FormatEnabled(clip.format)
  }

  /** Then the first copy of the clip in any change adds nothing to the offer, and fewer copies are offered than
      there are. */
  lemma {:induction false} FirstEchoSuppressed(e: Engine, origin: DeviceBytes, d: Data, clip: AppliedClip, e1: Engine,
                                              ins: seq<Input>, e2: Engine, reps: seq<LocalRepr>, i: nat, sha: Sha)
    requires AwaitsEcho(e, origin, d, clip, e1, ins, e2, sha)
    requires i < |reps| && IsCopy(reps[i], clip.format, sha(clip.bytes), sha)
    requires Copies(reps[..i], clip.format, sha(clip.bytes), sha) == 0
    ensures Offering(e2.settings, e2.applied, reps[..i + 1], sha).1 ==
            Offering(e2.settings, e2.applied, reps[..i], sha).1
    ensures Offered(e2, LocalChanged(reps), clip.format, sha(clip.bytes), sha) <
            Considered(e2, LocalChanged(reps), clip.format, sha(clip.bytes), sha)
  {
    ReachableKeyed(e, sha);
    ApplyRecords(e, origin, d, sha);
    KeyedStays(e, GotData(origin, d), sha);
    var (f, h) := (clip.format, sha(clip.bytes));
    assert e1.applied[|e1.applied| - 1].Answers(f, h);
    MarkerSurvives(e1, ins, sha, f, h, 1);
    FirstCopyIsEcho(e2.settings, e2.applied, reps, i, sha, f, h, 1 + Applies(e1, ins, sha));
    OfferingShort(e2.settings, e2.applied, reps, i, sha, f, h);
  }

  /** So copying the applied bytes back, when they are canonical, offers nothing. */
  lemma {:induction false} EchoIsNotOffered(e: Engine, origin: DeviceBytes, d: Data, clip: AppliedClip, e1: Engine,
                                           ins: seq<Input>, e2: Engine, sha: Sha)
    requires AwaitsEcho(e, origin, d, clip, e1, ins, e2, sha)
    requires Canonical(clip.format, clip.bytes) == clip.bytes
    ensures OnLocalChange(e2, [LocalRepr(clip.format, clip.bytes)], sha).1.None?
  {
    var reps := [LocalRepr(clip.format, clip.bytes)];
    assert reps[..0] == [] && reps[..1] == reps;
    FirstEchoSuppressed(e, origin, d, clip, e1, ins, e2, reps, 0, sha);
  }
}
