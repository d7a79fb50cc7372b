/** The clipboard sync machine of one device. */
module ClipEngine {
  import opened Common
  import opened ClipCanonical
  import opened ClipReassembly
  import opened ClipTracking

  const CONTROL_TEXT_CAP: nat := 64 * 1024
  const ID_LEN: nat := 32

  // ---- Settings ------------------------------------------------------------------------------

  datatype Direction = Bidirectional | SendOnly | ReceiveOnly

  datatype Settings = Settings(sharedClipboard: bool, syncText: bool, syncImages: bool, syncFiles: bool,
                               maxAutoSyncBytes: nat, preferNativeApple: bool, direction: Direction)
  {
    predicate FormatEnabled(f: ClipFormat) {
      match f
      case Utf8Text => syncText
      case Html => syncText
      case Rtf => syncText
      case Png => syncImages
      case UriList => syncFiles
      case Unknown => false
    }
    predicate CanOffer() { sharedClipboard && direction != ReceiveOnly }
    predicate CanReceive() { sharedClipboard && direction != SendOnly }
    predicate WithinLimit(size: nat) { maxAutoSyncBytes == 0 || size <= maxAutoSyncBytes }
    predicate PrefersNative(local: Os, peer: Os) { preferNativeApple && IsApple(local) && IsApple(peer) }
  }

  predicate IsApple(os: Os) { os == Macos || os == Ios }

  // ---- Messages ------------------------------------------------------------------------------

  datatype Entry = Entry(format: ClipFormat, hash: seq<byte>, size: nat)
  datatype Offer = Offer(entries: seq<Entry>, origin: seq<byte>)
  datatype PullMsg = PullMsg(hash: seq<byte>, format: ClipFormat)
  datatype Data = Data(hash: seq<byte>, format: ClipFormat, offset: nat, data: seq<byte>, last: bool)
  datatype LocalRepr = LocalRepr(format: ClipFormat, bytes: seq<byte>)
  datatype AppliedClip = AppliedClip(format: ClipFormat, bytes: seq<byte>)

  /** What a content source answers for a (format, hash) it once offered. */
  type Source = (ClipFormat, Hash) -> Option<seq<byte>>

  datatype Engine = Engine(deviceId: DeviceBytes, os: Os, settings: Settings,
                           applied: seq<Marker>, pending: Table, now: nat)

  function NewEngine(deviceId: DeviceBytes, os: Os, settings: Settings): Engine {
    Engine(deviceId, os, settings, [], Table(map[], []), 0)
  }

  // ---- Local change ----------------------------------------------------------------------------

  function ContentHash(format: ClipFormat, bytes: seq<byte>, sha: Sha): Hash { sha(Canonical(format, bytes)) }

  /** The log after suppressing echoes among `reps`, and the entries that remain to offer. */
  function Offering(settings: Settings, log: seq<Marker>, reps: seq<LocalRepr>, sha: Sha): (seq<Marker>, seq<Entry>) {
    if reps == [] then (log, [])
    else
      var (l, es) := Offering(settings, log, reps[..|reps| - 1], sha);
      var rep := reps[|reps| - 1];
      var hash := ContentHash(rep.format, rep.bytes, sha);
      if !settings.FormatEnabled(rep.format) then (l, es)
      else
        var (l', echo) := Suppressed(l, rep.format, hash);
        if echo then (l', es) else (l', es + [Entry(rep.format, hash, |Canonical(rep.format, rep.bytes)|)])
  }

  function OnLocalChange(e: Engine, reps: seq<LocalRepr>, sha: Sha): (Engine, Option<Offer>) {
    if !e.settings.CanOffer() then (e, None)
    else
      var (log, entries) := Offering(e.settings, e.applied, reps, sha);
      (e.(applied := log), if entries == [] then None else Some(Offer(entries, e.deviceId)))
  }

  // ---- Inbound offer -----------------------------------------------------------------------------

  function Rank(f: ClipFormat): Option<nat> {
    match f
    case Png => Some(0)
    case Rtf => Some(1)
    case Html => Some(2)
    case UriList => Some(3)
    case Utf8Text => Some(4)
    case Unknown => None
  }

  predicate Eligible(s: Settings, x: Entry) {
    s.FormatEnabled(x.format) && s.WithinLimit(x.size) && Rank(x.format).Some?
  }

  /** The first of the most-preferred eligible entries. */
  function BestEntry(s: Settings, xs: seq<Entry>): (b: Option<nat>)
    ensures b.None? <==> forall k :: 0 <= k < |xs| ==> !Eligible(s, xs[k])
    ensures b.Some? ==>
              && b.value < |xs| && Eligible(s, xs[b.value])
              && forall k :: 0 <= k < |xs| && Eligible(s, xs[k]) ==>
                   Rank(xs[b.value].format).value <= Rank(xs[k].format).value
                   && (k < b.value ==> Rank(xs[b.value].format).value < Rank(xs[k].format).value)
  {
    if xs == [] then None
    else
      var last := |xs| - 1;
      var b := BestEntry(s, xs[..last]);
      if Eligible(s, xs[last]) && (b.None? || Rank(xs[last].format).value < Rank(xs[b.value].format).value)
      then Some(last) else b
  }

  /** The keys an offer (re-)advertises; entries with a malformed hash are skipped. */
  function Advertised(origin: DeviceBytes, xs: seq<Entry>): seq<PullKey> {
    if xs == [] then []
    else
      var rest, x := Advertised(origin, xs[..|xs| - 1]), xs[|xs| - 1];
      if |x.hash| == ID_LEN then rest + [PullKey(origin, x.format, x.hash)] else rest
  }

  function OnOffer(e: Engine, offer: Offer, peerOs: Os): (Engine, Result<Option<PullMsg>, ClipboardError>) {
    if !e.settings.CanReceive() then (e, Ok(None))
    else if |offer.origin| != ID_LEN then (e, Err(Protocol))
    else if offer.origin == e.deviceId then (e, Ok(None))
    else if e.settings.PrefersNative(e.os, peerOs) then
      (e.(pending := Without(e.pending, OfOrigin(e.pending, offer.origin))), Ok(None))
    else
      var t := Without(e.pending, Superseded(e.pending, offer.origin, Advertised(offer.origin, offer.entries)));
      var best := BestEntry(e.settings, offer.entries);
      if best.None? then (e.(pending := t), Ok(None))
      else
        var x := offer.entries[best.value];
        if |x.hash| != ID_LEN then (e.(pending := t), Err(Protocol))
        else
          (e.(pending := Inserted(t, NewPull(PullKey(offer.origin, x.format, x.hash), x.size, peerOs, e.now))),
           Ok(Some(PullMsg(x.hash, x.format))))
  }

  // ---- Inbound pull ------------------------------------------------------------------------------

  predicate IsText(f: ClipFormat) { f == Utf8Text || f == Html || f == Rtf || f == UriList }

  predicate OnControl(f: ClipFormat, size: nat) { IsText(f) && size <= CONTROL_TEXT_CAP }

  /** Chunks of bytes[offset..], each at most 1 MiB, the last one marked. */
  function ChunksFrom(hash: Hash, f: ClipFormat, bytes: seq<byte>, offset: nat): seq<Data>
    requires offset <= |bytes|
    decreases |bytes| - offset
  {
    if offset == |bytes| then []
    else
      var end := Min(offset + MAX_DATA_CHUNK, |bytes|);
      [Data(hash, f, offset, bytes[offset..end], end == |bytes|)] + ChunksFrom(hash, f, bytes, end)
  }

  function Chunks(hash: Hash, f: ClipFormat, bytes: seq<byte>): seq<Data> {
    if OnControl(f, |bytes|) || bytes == [] then [Data(hash, f, 0, bytes, true)]
    else ChunksFrom(hash, f, bytes, 0)
  }

  method ChunkData(hash: Hash, f: ClipFormat, bytes: seq<byte>) returns (out: seq<Data>)
    ensures out == Chunks(hash, f, bytes)
  {
    if OnControl(f, |bytes|) { return [Data(hash, f, 0, bytes, true)]; }
    if |bytes| == 0 { return [Data(hash, f, 0, [], true)]; }
    out := [];
    var offset := 0;
    while offset < |bytes|
      invariant 0 <= offset <= |bytes|
      invariant out + ChunksFrom(hash, f, bytes, offset) == ChunksFrom(hash, f, bytes, 0)
    {
      var end := Min(offset + MAX_DATA_CHUNK, |bytes|);
      out := out + [Data(hash, f, offset, bytes[offset..end], end == |bytes|)];
      offset := end;
    }
  }

  function OnPull(e: Engine, pull: PullMsg, source: Source): Result<seq<Data>, ClipboardError> {
    if !e.settings.CanOffer() || !e.settings.FormatEnabled(pull.format) then Ok([])
    else if |pull.hash| != ID_LEN then Err(Protocol)
    else match source(pull.format, pull.hash)
      case None => Ok([])
      case Some(bytes) => Ok(Chunks(pull.hash, pull.format, bytes))
  }

  // ---- Inbound data -------------------------------------------------------------------------------

  function KeyFor(t: Table, origin: DeviceBytes, f: ClipFormat, hash: Hash): Result<PullKey, ClipboardError> {
    if PullKey(origin, f, hash) in t.entries then Ok(PullKey(origin, f, hash))
    else if exists k :: k in t.entries && k.origin == origin && k.hash == hash then Err(Protocol)
    else Err(UnknownHash)
  }

  function OnKeyedData(e: Engine, key: PullKey, d: Data, sha: Sha)
    : (Engine, Result<Option<AppliedClip>, ClipboardError>)
    requires key in e.pending.entries
  {
    var p := e.pending.entries[key];
    var (m, r) := Push(p.reasm, d.offset, d.data, d.last, sha);
    match r
    case Err(err) => (e.(pending := Without(e.pending, {key})), Err(err))
    case Ok(None) =>
      (e.(pending := e.pending.(entries := e.pending.entries[key := p.(reasm := m)])), Ok(None))
    case Ok(Some(bytes)) =>
      var cleared := e.(pending := Without(e.pending, {key}));
      if !e.settings.CanReceive() || !e.settings.FormatEnabled(p.key.format)
         || e.settings.PrefersNative(e.os, p.peerOs)
      then (cleared, Ok(None))
      else (cleared.(applied := Recorded(e.applied, PullKey(p.key.origin, p.key.format, key.hash))),
            Ok(Some(AppliedClip(p.key.format, bytes))))
  }

  function OnDataFrom(e: Engine, origin: DeviceBytes, d: Data, sha: Sha)
    : (Engine, Result<Option<AppliedClip>, ClipboardError>)
  {
    if |d.hash| != ID_LEN then (e, Err(Protocol))
    else match KeyFor(e.pending, origin, d.format, d.hash)
      case Err(err) => (e, Err(err))
      case Ok(key) => OnKeyedData(e, key, d, sha)
  }

  function OnTick(e: Engine, now: nat): Engine {
    var t := Max(e.now, now);
    e.(now := t, pending := Without(e.pending, Stalled(e.pending, t)))
  }

  // ---- The machine -----------------------------------------------------------------------------------

  class ClipboardEngine {
    const deviceId: DeviceBytes
    const os: Os
    var settings: Settings
    const applied: AppliedLog
    const pending: PendingPulls
    var nowTick: nat

    ghost function Now(): Engine
      reads this, applied, pending
    {
      Engine(deviceId, os, settings, applied.entries, pending.Now(), nowTick)
    }

    ghost predicate Valid()
      reads this, pending
    {
      ClipTracking.Valid(pending.Now())
    }

    constructor (deviceId: DeviceBytes, os: Os, settings: Settings)
      ensures Now() == NewEngine(deviceId, os, settings) && Valid()
    {
      this.deviceId, this.os, this.settings, nowTick := deviceId, os, settings, 0;
      applied := new AppliedLog();
      pending := new PendingPulls();
    }

    method LocalChange(reps: seq<LocalRepr>, sha: Sha) returns (offer: Option<Offer>)
      modifies applied
      ensures (Now(), offer) == OnLocalChange(old(Now()), reps, sha)
    {
      if !settings.CanOffer() { return None; }
      var entries := [];
      for i := 0 to |reps|
        invariant unchanged(this) && unchanged(pending)
        invariant (applied.entries, entries) == Offering(settings, old(applied.entries), reps[..i], sha)
      {
        var rep := reps[i];
        assert reps[..i + 1][..i] == reps[..i];
        if !settings.FormatEnabled(rep.format) { continue; }
        var hash := sha(Canonical(rep.format, rep.bytes));
        var echo := applied.SuppressOnce(rep.format, hash);
        if echo { continue; }
        entries := entries + [Entry(rep.format, hash, |Canonical(rep.format, rep.bytes)|)];
      }
      assert reps[..|reps|] == reps;
      offer := if entries == [] then None else Some(Offer(entries, deviceId));
    }

    method InboundOffer(offer: Offer, peerOs: Os) returns (r: Result<Option<PullMsg>, ClipboardError>)
      requires Valid()
      modifies pending
      ensures Valid()
      ensures (Now(), r) == OnOffer(old(Now()), offer, peerOs)
    {
      if !settings.CanReceive() { return Ok(None); }
      if |offer.origin| != ID_LEN { return Err(Protocol); }
      if offer.origin == deviceId { return Ok(None); }
      ghost var t := pending.Now();
      if settings.PrefersNative(os, peerOs) {
        var _ := pending.RemoveOrigin(offer.origin);
        WithoutKeeps(t, OfOrigin(t, offer.origin));
        return Ok(None);
      }
      var advertised := Advertised(offer.origin, offer.entries);
      pending.RetainOriginOffer(offer.origin, advertised);
      WithoutKeeps(t, Superseded(t, offer.origin, advertised));
      var best := BestEntry(settings, offer.entries);
      if best.None? { return Ok(None); }
      var x := offer.entries[best.value];
      if |x.hash| != ID_LEN { return Err(Protocol); }
      pending.Insert(NewPull(PullKey(offer.origin, x.format, x.hash), x.size, peerOs, nowTick));
      r := Ok(Some(PullMsg(x.hash, x.format)));
    }

    method InboundData(origin: DeviceBytes, d: Data, sha: Sha) returns (r: Result<Option<AppliedClip>, ClipboardError>)
      requires Valid()
      modifies pending, applied
      ensures Valid()
      ensures (Now(), r) == OnDataFrom(old(Now()), origin, d, sha)
    {
      if |d.hash| != ID_LEN { return Err(Protocol); }
      var key := PullKey(origin, d.format, d.hash);
      if key !in pending.entries {
        var same := exists k :: k in pending.entries && k.origin == origin && k.hash == d.hash;
        return Err(if same then Protocol else UnknownHash);
      }
      var p := pending.entries[key];
      ghost var t := pending.Now();
      var reasm := new Reassembly.Resume(p.reasm);
      var pushed := reasm.Receive(d.offset, d.data, d.last, sha);
      WithoutKeeps(t, {key});
      match pushed {
        case Err(err) =>
          pending.Remove(key);
          r := Err(err);
        case Ok(None) =>
          pending.entries := pending.entries[key := p.(reasm := reasm.View())];
          r := Ok(None);
        case Ok(Some(bytes)) =>
          pending.Remove(key);
          if !settings.CanReceive() || !settings.FormatEnabled(p.key.format) || settings.PrefersNative(os, p.peerOs) {
            return Ok(None);
          }
          applied.Record(PullKey(p.key.origin, p.key.format, key.hash));
          r := Ok(Some(AppliedClip(p.key.format, bytes)));
      }
    }

    method Tick(now: nat) returns (swept: nat)
      requires Valid()
      modifies this`nowTick, pending
      ensures Valid()
      ensures Now() == OnTick(old(Now()), now)
      ensures swept == |Stalled(old(pending.Now()), nowTick)|
    {
      nowTick := Max(nowTick, now);
      ghost var t := pending.Now();
      WithoutKeeps(t, Stalled(t, nowTick));
      swept := pending.ExpireStalled(nowTick);
    }
  }
}
