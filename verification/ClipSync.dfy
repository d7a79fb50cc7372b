/** What clipboard sync guarantees over whole runs and end to end. */
module ClipSync {
  import opened Common
  import opened ClipCanonical
  import opened ClipReassembly
  import opened ClipTracking
  import opened ClipEngine

  // ---- Runs of one engine ----------------------------------------------------------------------

  datatype Input =
    | LocalChanged(reps: seq<LocalRepr>)
    | GotOffer(offer: Offer, peerOs: Os)
    | GotData(origin: DeviceBytes, d: Data)
    | Ticked(now: nat)
    | AbortHash(hash: Hash)
    | AbortOrigin(origin: DeviceBytes)
    | Reconfigured(settings: Settings)

  function Apply(e: Engine, i: Input, sha: Sha): Engine {
    match i
    case LocalChanged(reps) => OnLocalChange(e, reps, sha).0
    case GotOffer(offer, os) => OnOffer(e, offer, os).0
    case GotData(origin, d) => OnDataFrom(e, origin, d, sha).0
    case Ticked(now) => OnTick(e, now)
    case AbortHash(h) => e.(pending := Without(e.pending, WithHash(e.pending, h)))
    case AbortOrigin(o) => e.(pending := Without(e.pending, OfOrigin(e.pending, o)))
    case Reconfigured(s) => e.(settings := s)
  }

  function After(e: Engine, ins: seq<Input>, sha: Sha): Engine
    decreases |ins|
  {
    if ins == [] then e else After(Apply(e, ins[0], sha), ins[1..], sha)
  }

  lemma {:induction false} ApplyKeeps(e: Engine, i: Input, sha: Sha)
    requires Valid(e.pending)
    ensures Valid(Apply(e, i, sha).pending)
  {
    var t := e.pending;
    match i {
      case GotOffer(offer, os) =>
        WithoutKeeps(t, OfOrigin(t, offer.origin));
        var gone := Superseded(t, offer.origin, Advertised(offer.origin, offer.entries));
        WithoutKeeps(t, gone);
        var best := BestEntry(e.settings, offer.entries);
        if best.Some? {
          var x := offer.entries[best.value];
          InsertedKeeps(Without(t, gone), NewPull(PullKey(offer.origin, x.format, x.hash), x.size, os, e.now));
        }
      case GotData(origin, d) => WithoutKeeps(t, {PullKey(origin, d.format, d.hash)});
      case Ticked(now) => WithoutKeeps(t, Stalled(t, Max(e.now, now)));
      case AbortHash(h) => WithoutKeeps(t, WithHash(t, h));
      case AbortOrigin(o) => WithoutKeeps(t, OfOrigin(t, o));
      case _ =>
    }
  }

  /** In every reachable state the queue lists exactly the pending keys, each once, at most 64 of them. */
  lemma {:induction false} QueueMirrorsMap(e: Engine, ins: seq<Input>, sha: Sha)
    requires Valid(e.pending)
    ensures Valid(After(e, ins, sha).pending)
    decreases |ins|
  {
    if ins != [] {
      ApplyKeeps(e, ins[0], sha);
      QueueMirrorsMap(Apply(e, ins[0], sha), ins[1..], sha);
    }
  }

  // ---- Offers and ticks ------------------------------------------------------------------------

  lemma {:induction false} AdvertisedIs(origin: DeviceBytes, xs: seq<Entry>, i: nat)
    requires i < |xs| && |xs[i].hash| == ID_LEN
    ensures PullKey(origin, xs[i].format, xs[i].hash) in Advertised(origin, xs)
  {
    if i < |xs| - 1 { AdvertisedIs(origin, xs[..|xs| - 1], i); }
  }

  predicate GatesOpen(e: Engine, offer: Offer, peerOs: Os) {
    && e.settings.CanReceive() && |offer.origin| == ID_LEN && offer.origin != e.deviceId
    && !e.settings.PrefersNative(e.os, peerOs)
  }

  /** Only `gone` of the pulls of other origins disappears, and none changes. */
  ghost predicate OthersExcept(t: Table, t': Table, origin: DeviceBytes, gone: set<PullKey>) {
    && (forall k: PullKey :: k.origin != origin ==> (k in t'.entries <==> k in t.entries && k !in gone))
    && (forall k: PullKey :: k.origin != origin && k in t'.entries ==> t'.entries[k] == t.entries[k])
  }

  lemma {:induction false} InsertDisturbs(t: Table, p: Pull)
    requires Valid(t)
    ensures var t1, t' := Without(t, {p.key}), Inserted(t, p);
            && (forall k :: k in t'.entries ==> k in t.entries || k == p.key)
            && exists gone :: OldestOfFull(t1, gone) && OthersExcept(t, t', p.key.origin, gone)
  {
    var t1, t' := Without(t, {p.key}), Inserted(t, p);
    WithoutKeeps(t, {p.key});
    var gone := if |t1.order| < MAX_PENDING_PULLS then {} else {t1.order[0]};
    assert OthersExcept(t, t', p.key.origin, gone);
  }

  /** The pulls an offer leaves before its own is queued. */
  function Surviving(e: Engine, offer: Offer): Table {
    var t := Without(e.pending, Superseded(e.pending, offer.origin, Advertised(offer.origin, offer.entries)));
    var best := BestEntry(e.settings, offer.entries);
    if best.None? then t
    else Without(t, {PullKey(offer.origin, offer.entries[best.value].format, offer.entries[best.value].hash)})
  }

  /** Nothing, or the head of the queue of a full table. */
  predicate OldestOfFull(t: Table, gone: set<PullKey>) {
    gone == {} || (|t.order| == MAX_PENDING_PULLS && gone == {t.order[0]})
  }

  /** An offer that passes the gates leaves, of its origin, only pulls it advertises; of the other origins it
      takes at most one, and only the oldest of a full table. */
  lemma {:induction false} OfferEffect(e: Engine, offer: Offer, peerOs: Os)
    requires Valid(e.pending) && GatesOpen(e, offer, peerOs)
    ensures var t' := OnOffer(e, offer, peerOs).0.pending;
            && (forall k :: k in t'.entries && k.origin == offer.origin ==>
                  k in Advertised(offer.origin, offer.entries))
            && (exists gone ::
                  OldestOfFull(Surviving(e, offer), gone) && OthersExcept(e.pending, t', offer.origin, gone))
  {
    var o := offer.origin;
    var keep := Advertised(o, offer.entries);
    var t := Without(e.pending, Superseded(e.pending, o, keep));
    var t' := OnOffer(e, offer, peerOs).0.pending;
    WithoutKeeps(e.pending, Superseded(e.pending, o, keep));
    assert OthersExcept(e.pending, t, o, {});
    assert OldestOfFull(Surviving(e, offer), {});
    var best := BestEntry(e.settings, offer.entries);
    if best.Some? && |offer.entries[best.value].hash| == ID_LEN {
      var x := offer.entries[best.value];
      AdvertisedIs(o, offer.entries, best.value);
      var p := NewPull(PullKey(o, x.format, x.hash), x.size, peerOs, e.now);
      InsertDisturbs(t, p);
      var gone :| OldestOfFull(Without(t, {p.key}), gone) && OthersExcept(t, t', o, gone);
      assert OthersExcept(e.pending, t', o, gone);
    }
  }

  /** After a tick no stalled pull remains, and no other was dropped. */
  lemma {:induction false} TickSweeps(e: Engine, now: nat, k: PullKey)
    ensures k in OnTick(e, now).pending.entries <==>
              k in e.pending.entries && Max(e.now, now) < e.pending.entries[k].deadline
  {
  }

  // ---- End to end --------------------------------------------------------------------------------------

  function Feed(e: Engine, origin: DeviceBytes, ds: seq<Data>, sha: Sha)
    : (Engine, seq<Result<Option<AppliedClip>, ClipboardError>>)
    decreases |ds|
  {
    if ds == [] then (e, [])
    else
      var (e1, r) := OnDataFrom(e, origin, ds[0], sha);
      var (e2, rs) := Feed(e1, origin, ds[1..], sha);
      (e2, [r] + rs)
  }

  /** The receiver is part-way through pulling `bytes` from `origin`. */
  predicate Pulling(e: Engine, origin: DeviceBytes, f: ClipFormat, bytes: seq<byte>, offset: nat, sha: Sha) {
    var key := PullKey(origin, f, sha(bytes));
    && offset <= |bytes| && |sha(bytes)| == ID_LEN
    && key in e.pending.entries && e.pending.entries[key].key == key
    && e.pending.entries[key].reasm == Reasm(f, sha(bytes), |bytes|, bytes[..offset], false)
    && e.settings.CanReceive() && e.settings.FormatEnabled(f)
    && !e.settings.PrefersNative(e.os, e.pending.entries[key].peerOs)
  }

  /** Every result but the last is `None`, and the last is the clip. */
  predicate Delivers(rs: seq<Result<Option<AppliedClip>, ClipboardError>>, clip: AppliedClip) {
    && rs != [] && rs[|rs| - 1] == Ok(Some(clip))
    && forall k :: 0 <= k < |rs| - 1 ==> rs[k] == Ok(None)
  }

  lemma {:induction false} LastChunk(e: Engine, origin: DeviceBytes, f: ClipFormat,
                                     bytes: seq<byte>, offset: nat, sha: Sha)
    requires Pulling(e, origin, f, bytes, offset, sha) && |bytes| <= U64_MAX && |bytes| - offset <= MAX_DATA_CHUNK
    ensures OnDataFrom(e, origin, Data(sha(bytes), f, offset, bytes[offset..], true), sha).1 ==
            Ok(Some(AppliedClip(f, bytes)))
  {
    assert bytes[..offset] + bytes[offset..] == bytes;
  }

  lemma {:induction false} MiddleChunk(e: Engine, origin: DeviceBytes, f: ClipFormat,
                                       bytes: seq<byte>, offset: nat, end: nat, sha: Sha)
    requires Pulling(e, origin, f, bytes, offset, sha) && |bytes| <= U64_MAX
    requires offset <= end < |bytes| && end - offset <= MAX_DATA_CHUNK
    ensures var (e', r) := OnDataFrom(e, origin, Data(sha(bytes), f, offset, bytes[offset..end], false), sha);
            r == Ok(None) && Pulling(e', origin, f, bytes, end, sha)
  {
    assert bytes[..offset] + bytes[offset..end] == bytes[..end];
  }

  lemma {:induction false} FeedChunks(e: Engine, origin: DeviceBytes, f: ClipFormat,
                                      bytes: seq<byte>, offset: nat, sha: Sha)
    requires Pulling(e, origin, f, bytes, offset, sha) && |bytes| <= U64_MAX && offset < |bytes|
    ensures Delivers(Feed(e, origin, ChunksFrom(sha(bytes), f, bytes, offset), sha).1, AppliedClip(f, bytes))
    decreases |bytes| - offset
  {
    var end := Min(offset + MAX_DATA_CHUNK, |bytes|);
    var c := Data(sha(bytes), f, offset, bytes[offset..end], end == |bytes|);
    var ds := ChunksFrom(sha(bytes), f, bytes, offset);
    assert ds[0] == c && ds[1..] == ChunksFrom(sha(bytes), f, bytes, end);
    var e1 := OnDataFrom(e, origin, c, sha).0;
    if end == |bytes| {
      assert bytes[offset..end] == bytes[offset..];
      LastChunk(e, origin, f, bytes, offset, sha);
      assert ds[1..] == [];
      assert Feed(e1, origin, [], sha).1 == [];
    } else {
      MiddleChunk(e, origin, f, bytes, offset, end, sha);
      FeedChunks(e1, origin, f, bytes, end, sha);
      var rest := Feed(e1, origin, ds[1..], sha).1;
      var all := Feed(e, origin, ds, sha).1;
      assert all == [Ok(None)] + rest;
      assert forall k :: 0 < k < |all| - 1 ==> all[k] == rest[k - 1];
    }
  }

  lemma {:induction false} FeedAll(e: Engine, origin: DeviceBytes, f: ClipFormat, bytes: seq<byte>, sha: Sha)
    requires Pulling(e, origin, f, bytes, 0, sha) && |bytes| <= U64_MAX
    ensures Delivers(Feed(e, origin, Chunks(sha(bytes), f, bytes), sha).1, AppliedClip(f, bytes))
  {
    if OnControl(f, |bytes|) || bytes == [] {
      var ds := Chunks(sha(bytes), f, bytes);
      assert bytes[0..] == bytes && ds == [Data(sha(bytes), f, 0, bytes[0..], true)] && ds[1..] == [];
      LastChunk(e, origin, f, bytes, 0, sha);
      assert Feed(OnDataFrom(e, origin, ds[0], sha).0, origin, [], sha).1 == [];
    } else {
      FeedChunks(e, origin, f, bytes, 0, sha);
    }
  }

  /** Contiguous from `offset`, each at most 1 MiB, only the last marked. */
  predicate InOrder(ds: seq<Data>, offset: nat) {
    && ds != [] && ds[0].offset == offset
    && (forall k :: 0 <= k < |ds| ==> |ds[k].data| <= MAX_DATA_CHUNK && (ds[k].last <==> k == |ds| - 1))
    && (forall k :: 0 < k < |ds| ==> ds[k].offset == ds[k - 1].offset + |ds[k - 1].data|)
  }

  /** All but the last as large as a chunk may be, and no empty one among several. */
  predicate Full(ds: seq<Data>) {
    forall k :: 0 <= k < |ds| ==> (k < |ds| - 1 ==> |ds[k].data| == 1048576) && (|ds| > 1 ==> ds[k].data != [])
  }

  lemma {:induction false} ChunksFromCover(hash: Hash, f: ClipFormat, bytes: seq<byte>, offset: nat)
    requires offset < |bytes|
    ensures var ds := ChunksFrom(hash, f, bytes, offset);
            InOrder(ds, offset) && Joined(ds) == bytes[offset..]
    decreases |bytes| - offset
  {
    var end := Min(offset + MAX_DATA_CHUNK, |bytes|);
    var ds := ChunksFrom(hash, f, bytes, offset);
    assert ds[1..] == ChunksFrom(hash, f, bytes, end);
    if end < |bytes| {
      ChunksFromCover(hash, f, bytes, end);
      assert bytes[offset..] == bytes[offset..end] + bytes[end..];
      assert forall k :: 0 < k < |ds| ==> ds[k] == ds[1..][k - 1];
    } else {
      assert bytes[offset..end] == bytes[offset..];
      assert Joined(ds[1..]) == [];
    }
  }

  lemma {:induction false} ChunksFromFull(hash: Hash, f: ClipFormat, bytes: seq<byte>, offset: nat)
    requires offset < |bytes|
    ensures var ds := ChunksFrom(hash, f, bytes, offset); ds != [] && ds[0].data != [] && Full(ds)
    decreases |bytes| - offset
  {
    var end := Min(offset + MAX_DATA_CHUNK, |bytes|);
    var ds := ChunksFrom(hash, f, bytes, offset);
    var rest := ChunksFrom(hash, f, bytes, end);
    assert |ds[0].data| == end - offset;
    if end < |bytes| {
      ChunksFromFull(hash, f, bytes, end);
      assert forall k :: 0 < k < |ds| ==> ds[k] == rest[k - 1];
    }
  }

  /** The chunks of any payload, empty or short included, are in order from 0, as large as they may be, and together
      are the payload. */
  lemma {:induction false} ChunksCover(hash: Hash, f: ClipFormat, bytes: seq<byte>)
    ensures var ds := Chunks(hash, f, bytes);
            && InOrder(ds, 0) && Full(ds) && Joined(ds) == bytes
            && (forall k :: 0 <= k < |ds| ==> ds[k].hash == hash && ds[k].format == f)
  {
    if OnControl(f, |bytes|) || bytes == [] {
      assert Chunks(hash, f, bytes)[1..] == [];
    } else {
      ChunksFromCover(hash, f, bytes, 0);
      ChunksFromFull(hash, f, bytes, 0);
      ChunksFromLabel(hash, f, bytes, 0);
      assert bytes[0..] == bytes;
    }
  }

  lemma {:induction false} ChunksFromLabel(hash: Hash, f: ClipFormat, bytes: seq<byte>, offset: nat)
    requires offset <= |bytes|
    ensures forall k :: 0 <= k < |ChunksFrom(hash, f, bytes, offset)| ==>
              ChunksFrom(hash, f, bytes, offset)[k].hash == hash && ChunksFrom(hash, f, bytes, offset)[k].format == f
    decreases |bytes| - offset
  {
    if offset < |bytes| {
      var end := Min(offset + MAX_DATA_CHUNK, |bytes|);
      ChunksFromLabel(hash, f, bytes, end);
    }
  }

  function Joined(ds: seq<Data>): seq<byte> {
    if ds == [] then [] else ds[0].data + Joined(ds[1..])
  }

  /** Every entry of an offer describes one of the representations. */
  lemma {:induction false} EntryDescribes(s: Settings, log: seq<Marker>, reps: seq<LocalRepr>, sha: Sha, i: nat)
    returns (k: nat)
    requires i < |Offering(s, log, reps, sha).1|
    ensures k < |reps| && Offering(s, log, reps, sha).1[i] == EntryOf(reps[k], sha)
  {
    var init := reps[..|reps| - 1];
    if i < |Offering(s, log, init, sha).1| {
      k := EntryDescribes(s, log, init, sha, i);
    } else {
      k := |reps| - 1;
    }
  }

  function EntryOf(rep: LocalRepr, sha: Sha): Entry {
    var bytes := Canonical(rep.format, rep.bytes);
    Entry(rep.format, sha(bytes), |bytes|)
  }

  /** The source still has every representation, in canonical form. */
  predicate Serves(source: Source, reps: seq<LocalRepr>, sha: Sha) {
    forall k :: 0 <= k < |reps| ==>
      var bytes := Canonical(reps[k].format, reps[k].bytes);
      source(reps[k].format, sha(bytes)) == Some(bytes) && |sha(bytes)| == ID_LEN && |bytes| <= U64_MAX
  }

  /** Whatever representations one device copies, an offer made to the other is pulled exactly if some entry is
      eligible there; then its best entry describes one of them, and in-order data applies exactly the canonical
      bytes of that one, on the last chunk and not before. */
  lemma {:induction false} EndToEnd(a: Engine, b: Engine, reps: seq<LocalRepr>, offer: Offer, source: Source, sha: Sha)
    requires OnLocalChange(a, reps, sha).1 == Some(offer) && Serves(source, reps, sha)
    requires GatesOpen(b, offer, a.os)
    ensures var best := BestEntry(b.settings, offer.entries);
            var (b1, pull) := OnOffer(b, offer, a.os);
            && (best.None? ==> pull == Ok(None))
            && (best.Some? ==>
                  exists k :: 0 <= k < |reps| && offer.entries[best.value] == EntryOf(reps[k], sha)
                    && PullDelivers(a, b1, pull, source, reps[k], sha))
  {
    var best := BestEntry(b.settings, offer.entries);
    if best.Some? {
      var k := EntryDescribes(a.settings, a.applied, reps, sha, best.value);
      var (b1, pull) := OnOffer(b, offer, a.os);
      var (f, bytes) := (reps[k].format, Canonical(reps[k].format, reps[k].bytes));
      OfferedIsEnabled(a.settings, a.applied, reps, sha, best.value);
      assert Pulling(b1, a.deviceId, f, bytes, 0, sha) by { assert bytes[..0] == []; }
      FeedAll(b1, a.deviceId, f, bytes, sha);
      assert PullDelivers(a, b1, pull, source, reps[k], sha);
    }
  }

  lemma {:induction false} OfferedIsEnabled(s: Settings, log: seq<Marker>, reps: seq<LocalRepr>, sha: Sha, i: nat)
    requires i < |Offering(s, log, reps, sha).1|
    ensures s.FormatEnabled(Offering(s, log, reps, sha).1[i].format)
  {
    var init := reps[..|reps| - 1];
    if i < |Offering(s, log, init, sha).1| { OfferedIsEnabled(s, log, init, sha, i); }
  }

  /** The pull is answered with data that delivers exactly the canonical bytes of `rep`. */
  predicate PullDelivers(a: Engine, b1: Engine, pull: Result<Option<PullMsg>, ClipboardError>, source: Source,
                         rep: LocalRepr, sha: Sha)
  {
    && pull.Ok? && pull.value.Some?
    && var data := OnPull(a, pull.value.value, source);
    && data.Ok?
    && Delivers(Feed(b1, a.deviceId, data.value, sha).1, AppliedClip(rep.format, Canonical(rep.format, rep.bytes)))
  }

  lemma {:induction false} OneIsOffered(a: Engine, rep: LocalRepr, sha: Sha)
    requires a.settings.CanOffer() && a.settings.FormatEnabled(rep.format)
    requires forall m :: m in a.applied ==> !m.Answers(rep.format, ContentHash(rep.format, rep.bytes, sha))
    ensures OnLocalChange(a, [rep], sha).1 == Some(Offer([EntryOf(rep, sha)], a.deviceId))
  {
    assert [rep][..0] == [];
    assert FirstAnswer(a.applied, rep.format, ContentHash(rep.format, rep.bytes, sha), 0) == |a.applied|;
    assert Offering(a.settings, a.applied, [], sha) == (a.applied, []);
    assert Offering(a.settings, a.applied, [rep], sha).1 == [EntryOf(rep, sha)];
  }

  lemma {:induction false} OneIsBest(s: Settings, x: Entry)
    requires s.FormatEnabled(x.format) && s.WithinLimit(x.size)
    ensures BestEntry(s, [x]) == Some(0)
  {
    assert Eligible(s, [x][0]);
  }

  /** Copying one representation that is not an echo, with every gate open, always gets through. */
  lemma {:induction false} OneCopyEndToEnd(a: Engine, b: Engine, f: ClipFormat, raw: seq<byte>,
                                           source: Source, sha: Sha)
    requires Serves(source, [LocalRepr(f, raw)], sha)
    requires a.settings.CanOffer() && a.settings.FormatEnabled(f) && |a.deviceId| == ID_LEN
    requires forall m :: m in a.applied ==> !m.Answers(f, ContentHash(f, raw, sha))
    requires b.settings.CanReceive() && b.settings.FormatEnabled(f) && !b.settings.PrefersNative(b.os, a.os)
    requires a.deviceId != b.deviceId && b.settings.WithinLimit(|Canonical(f, raw)|)
    ensures var offer := OnLocalChange(a, [LocalRepr(f, raw)], sha).1;
            && offer.Some?
            && var (b1, pull) := OnOffer(b, offer.value, a.os);
               PullDelivers(a, b1, pull, source, LocalRepr(f, raw), sha)
  {
    var rep := LocalRepr(f, raw);
    var entry := EntryOf(rep, sha);
    OneIsOffered(a, rep, sha);
    OneIsBest(b.settings, entry);
    EndToEnd(a, b, [rep], Offer([entry], a.deviceId), source, sha);
  }
}
