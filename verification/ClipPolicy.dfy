/** What the settings allow, which representation is pulled, and how long a pull waits. */
module ClipPolicy {
  import opened Common
  import opened ClipCanonical
  import opened ClipReassembly
  import opened ClipTracking
  import opened ClipEngine
  import opened ClipSync

  // ---- Settings ----------------------------------------------------------------------------------

  predicate MaySend(s: Settings) { s.sharedClipboard && s.direction in {Bidirectional, SendOnly} }

  predicate MayReceive(s: Settings) { s.sharedClipboard && s.direction in {Bidirectional, ReceiveOnly} }

  /** Plain and rich text share one switch; images and file lists have their own; anything else never syncs. */
  predicate Synced(s: Settings, f: ClipFormat) {
    || (s.syncText && f in {Utf8Text, Html, Rtf})
    || (s.syncImages && f == Png)
    || (s.syncFiles && f == UriList)
  }

  predicate Fits(s: Settings, size: nat) { s.maxAutoSyncBytes == 0 || size <= s.maxAutoSyncBytes }

  /** Two Apple devices that are told to leave it to the system. */
  predicate Native(s: Settings, local: Os, peer: Os) {
    s.preferNativeApple && {local, peer} <= {Macos, Ios}
  }

  predicate Usable(s: Settings, x: Entry) { Synced(s, x.format) && Fits(s, x.size) }

  lemma {:induction false} SettingsAre(s: Settings, f: ClipFormat, size: nat, local: Os, peer: Os)
    ensures s.CanOffer() <==> MaySend(s)
    ensures s.CanReceive() <==> MayReceive(s)
    ensures s.FormatEnabled(f) <==> Synced(s, f)
    ensures s.WithinLimit(size) <==> Fits(s, size)
    ensures s.PrefersNative(local, peer) <==> Native(s, local, peer)
  {
    assert local in {local, peer} && peer in {local, peer};
  }

  lemma {:induction false} EligibleIsUsable(s: Settings, x: Entry)
    ensures Eligible(s, x) <==> Usable(s, x)
  {
  }

  // ---- Which entry is pulled -------------------------------------------------------------------------

  /** Richest first. */
  const ORDER: seq<ClipFormat> := [Png, Rtf, Html, UriList, Utf8Text]

  /** Entry `b` is the first usable one of its format, and no format ahead of it in the order has a usable one. */
  predicate Richest(s: Settings, xs: seq<Entry>, b: nat) {
    && b < |xs| && Usable(s, xs[b])
    && exists p :: 0 <= p < |ORDER| && ORDER[p] == xs[b].format
         && forall k :: 0 <= k < |xs| && Usable(s, xs[k]) ==>
              xs[k].format !in ORDER[..p] && (xs[k].format == xs[b].format ==> b <= k)
  }

  lemma {:induction false} RankIsPlace(f: ClipFormat, p: nat)
    requires p < |ORDER| && ORDER[p] == f
    ensures Rank(f) == Some(p)
  {
  }

  /** An image is pulled if there is a usable one; else rich text, HTML, a file list; plain text only if nothing else
      is usable; and of one format the first. */
  lemma {:induction false} PullsTheRichest(s: Settings, xs: seq<Entry>)
    ensures BestEntry(s, xs).None? <==> forall k :: 0 <= k < |xs| ==> !Usable(s, xs[k])
    ensures forall b: nat :: BestEntry(s, xs) == Some(b) <==> Richest(s, xs, b)
  {
    forall k | 0 <= k < |xs| ensures Eligible(s, xs[k]) <==> Usable(s, xs[k]) { EligibleIsUsable(s, xs[k]); }
    var best := BestEntry(s, xs);
    if best.Some? { BestIsRichest(s, xs, best.value); }
    forall b: nat | Richest(s, xs, b) ensures best == Some(b) {
      if best.Some? { OneRichest(s, xs, b, best.value); }
    }
  }

  lemma {:induction false} BestIsRichest(s: Settings, xs: seq<Entry>, b: nat)
    requires BestEntry(s, xs) == Some(b)
    ensures Richest(s, xs, b)
  {
    EligibleIsUsable(s, xs[b]);
    var p := Rank(xs[b].format).value;
    assert ORDER[p] == xs[b].format;
    forall k | 0 <= k < |xs| && Usable(s, xs[k])
      ensures xs[k].format !in ORDER[..p] && (xs[k].format == xs[b].format ==> b <= k)
    {
      EligibleIsUsable(s, xs[k]);
      if xs[k].format in ORDER[..p] {
        var q :| 0 <= q < p && ORDER[q] == xs[k].format;
        RankIsPlace(xs[k].format, q);
      }
    }
  }

  lemma {:induction false} OneRichest(s: Settings, xs: seq<Entry>, a: nat, b: nat)
    requires Richest(s, xs, a) && Richest(s, xs, b)
    ensures a == b
  {
    var p :| 0 <= p < |ORDER| && ORDER[p] == xs[a].format
             && forall k :: 0 <= k < |xs| && Usable(s, xs[k]) ==>
                  xs[k].format !in ORDER[..p] && (xs[k].format == xs[a].format ==> a <= k);
    var q :| 0 <= q < |ORDER| && ORDER[q] == xs[b].format
             && forall k :: 0 <= k < |xs| && Usable(s, xs[k]) ==>
                  xs[k].format !in ORDER[..q] && (xs[k].format == xs[b].format ==> b <= k);
  }

  // ---- Gates -------------------------------------------------------------------------------------------

  /** While sending is off nothing is offered or served, and no marker is used up; a pull is served exactly if sending
      is on, the format syncs, the hash has 32 bytes and the source has it; a hash of another length is an error. */
  lemma {:induction false} SendGate(e: Engine, reps: seq<LocalRepr>, pull: PullMsg, source: Source, sha: Sha)
    ensures !MaySend(e.settings) ==> OnLocalChange(e, reps, sha) == (e, None)
    ensures var r := OnPull(e, pull, source);
            r.Ok? && r.value != [] <==>
              MaySend(e.settings) && Synced(e.settings, pull.format) && |pull.hash| == 32
              && source(pull.format, pull.hash).Some?
    ensures OnPull(e, pull, source).Err? <==>
            MaySend(e.settings) && Synced(e.settings, pull.format) && |pull.hash| != 32
  {
    SettingsAre(e.settings, pull.format, 0, e.os, e.os);
    if source(pull.format, pull.hash).Some? {
      ChunksCover(pull.hash, pull.format, source(pull.format, pull.hash).value);
    }
  }

  /** An offer is pulled exactly if receiving is on, it comes from another device with a 32-byte id, the pair is not
      left to the system, and the richest usable entry has a 32-byte hash; an id or such a hash of another length is
      an error. Off, malformed or our own, it changes nothing. */
  lemma {:induction false} OfferGate(e: Engine, offer: Offer, peerOs: Os)
    ensures var (e', r) := OnOffer(e, offer, peerOs);
            && (r.Ok? && r.value.Some? <==>
                  && MayReceive(e.settings) && |offer.origin| == 32 && offer.origin != e.deviceId
                  && !Native(e.settings, e.os, peerOs)
                  && exists b: nat :: Richest(e.settings, offer.entries, b) && |offer.entries[b].hash| == 32)
            && (r.Err? <==>
                  && MayReceive(e.settings)
                  && (|offer.origin| != 32
                      || (offer.origin != e.deviceId && !Native(e.settings, e.os, peerOs)
                          && exists b: nat :: Richest(e.settings, offer.entries, b) && |offer.entries[b].hash| != 32)))
            && (!MayReceive(e.settings) || |offer.origin| != 32 || offer.origin == e.deviceId ==> e' == e)
  {
    SettingsAre(e.settings, Png, 0, e.os, peerOs);
    PullsTheRichest(e.settings, offer.entries);
  }

  /** A pull the offer re-advertises stays as it is, unless it was the oldest of a table the new pull overfills. */
  lemma {:induction false} ReadvertisedStays(e: Engine, offer: Offer, peerOs: Os, k: PullKey)
    requires Valid(e.pending) && GatesOpen(e, offer, peerOs)
    requires k in e.pending.entries && k in Advertised(offer.origin, offer.entries)
    ensures var (t, t') := (Surviving(e, offer), OnOffer(e, offer, peerOs).0.pending);
            k in t'.entries || (|t.order| == MAX_PENDING_PULLS && k == t.order[0])
  {
    var t := Without(e.pending, Superseded(e.pending, offer.origin, Advertised(offer.origin, offer.entries)));
    assert k in t.entries;
    WithoutKeeps(e.pending, Superseded(e.pending, offer.origin, Advertised(offer.origin, offer.entries)));
    var best := BestEntry(e.settings, offer.entries);
    if best.Some? {
      WithoutKeeps(t, {PullKey(offer.origin, offer.entries[best.value].format, offer.entries[best.value].hash)});
    }
  }

  /** A clip is applied only while receiving is on, its format syncs, and the pair is not left to the system. */
  lemma {:induction false} ApplyGate(e: Engine, origin: DeviceBytes, d: Data, sha: Sha)
    requires forall k :: k in e.pending.entries ==> e.pending.entries[k].key == k
    ensures var r := OnDataFrom(e, origin, d, sha).1;
            r.Ok? && r.value.Some? ==>
              && MayReceive(e.settings) && r.value.value.format == d.format && Synced(e.settings, d.format)
              && PullKey(origin, d.format, d.hash) in e.pending.entries
              && !Native(e.settings, e.os, e.pending.entries[PullKey(origin, d.format, d.hash)].peerOs)
  {
    if PullKey(origin, d.format, d.hash) in e.pending.entries {
      SettingsAre(e.settings, d.format, 0, e.os, e.pending.entries[PullKey(origin, d.format, d.hash)].peerOs);
    }
  }

  /** Data nobody asked for is refused and changes nothing. */
  lemma {:induction false} UnaskedIsRefused(e: Engine, origin: DeviceBytes, d: Data, sha: Sha)
    requires PullKey(origin, d.format, d.hash) !in e.pending.entries
    ensures OnDataFrom(e, origin, d, sha).0 == e && OnDataFrom(e, origin, d, sha).1.Err?
  {
  }

  // ---- What ends a pull -----------------------------------------------------------------------------------

  /** Aborting by hash or by origin ends exactly those pulls, and so does an offer left to the system. */
  lemma {:induction false} AbortsAre(e: Engine, hash: Hash, origin: DeviceBytes, offer: Offer, peerOs: Os, sha: Sha,
                                    k: PullKey)
    ensures k in Apply(e, AbortHash(hash), sha).pending.entries <==> k in e.pending.entries && k.hash != hash
    ensures k in Apply(e, AbortOrigin(origin), sha).pending.entries <==> k in e.pending.entries && k.origin != origin
    ensures MayReceive(e.settings) && |offer.origin| == 32 && offer.origin != e.deviceId
            && Native(e.settings, e.os, peerOs) ==>
              (k in OnOffer(e, offer, peerOs).0.pending.entries <==> k in e.pending.entries && k.origin != offer.origin)
  {
    SettingsAre(e.settings, Png, 0, e.os, peerOs);
  }

  /** A pull waits 30 ticks from its offer, and no longer. */
  lemma {:induction false} PullWaits(e: Engine, offer: Offer, peerOs: Os, now: nat)
    requires OnOffer(e, offer, peerOs).1.Ok? && OnOffer(e, offer, peerOs).1.value.Some?
    ensures var (e', r) := OnOffer(e, offer, peerOs);
            var key := PullKey(offer.origin, r.value.value.format, r.value.value.hash);
            && key in e'.pending.entries
            && (key in OnTick(e', now).pending.entries <==> Max(e.now, now) < Min(e.now + 30, U64_MAX))
  {
    var e' := OnOffer(e, offer, peerOs).0;
    assert e'.now == e.now;
  }

  // ---- First in, first out ------------------------------------------------------------------------------------

  /** A pull is queued last; a full table first loses the pull that waited longest. */
  lemma {:induction false} InsertQueuesLast(t: Table, p: Pull)
    requires Valid(t)
    ensures var rest := Keep(t.order, {p.key});
            Inserted(t, p).order == (if |rest| < 64 then rest else rest[1..]) + [p.key]
  {
    var t1 := Without(t, {p.key});
    WithoutKeeps(t, {p.key});
    if |t1.order| >= 64 { KeepDropsHead(t1.order); }
  }

  function InsertAll(t: Table, ps: seq<Pull>): Table {
    if ps == [] then t else Inserted(InsertAll(t, ps[..|ps| - 1]), ps[|ps| - 1])
  }

  function Keys(ps: seq<Pull>): seq<PullKey> { seq(|ps|, i requires 0 <= i < |ps| => ps[i].key) }

  function Latest(ks: seq<PullKey>, n: nat): seq<PullKey> { if |ks| <= n then ks else ks[|ks| - n..] }

  lemma {:induction false} LatestSnoc(ks: seq<PullKey>, k: PullKey)
    ensures var l := Latest(ks, 64); Latest(ks + [k], 64) == (if |l| < 64 then l else l[1..]) + [k]
  {
  }

  lemma {:induction false} KeysSnoc(ps: seq<Pull>)
    requires ps != [] && Distinct(Keys(ps))
    ensures var (init, k) := (Keys(ps[..|ps| - 1]), ps[|ps| - 1].key);
            Keys(ps) == init + [k] && Distinct(init) && k !in init
  {
    var all, init := Keys(ps), Keys(ps[..|ps| - 1]);
    assert all == init + [ps[|ps| - 1].key];
    forall i, j | 0 <= i < j < |init| ensures init[i] != init[j] { assert all[i] != all[j]; }
    forall i | 0 <= i < |init| ensures init[i] != ps[|ps| - 1].key { assert all[i] != all[|all| - 1]; }
  }

  lemma {:induction false} NewKeyQueues(t: Table, p: Pull, ks: seq<PullKey>)
    requires Valid(t) && t.order == Latest(ks, 64) && p.key !in ks
    ensures Valid(Inserted(t, p)) && Inserted(t, p).order == Latest(ks + [p.key], 64)
  {
    InsertedKeeps(t, p);
    InsertQueuesLast(t, p);
    KeepAll(t.order, {p.key});
    LatestSnoc(ks, p.key);
  }

  /** Pulls of distinct keys, however many, leave exactly the last 64 in the order they came. */
  lemma {:induction false} FirstInFirstOut(ps: seq<Pull>)
    requires Distinct(Keys(ps))
    ensures Valid(InsertAll(Table(map[], []), ps)) && InsertAll(Table(map[], []), ps).order == Latest(Keys(ps), 64)
  {
    if ps != [] {
      var init := ps[..|ps| - 1];
      KeysSnoc(ps);
      FirstInFirstOut(init);
      NewKeyQueues(InsertAll(Table(map[], []), init), ps[|ps| - 1], Keys(init));
    }
  }
}
