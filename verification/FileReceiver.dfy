/** The receiver half of one transfer. */
module FileReceiver {
  import opened Common
  import opened FileTypes

  type Sha = seq<byte> -> Digest

  datatype Slot = Slot(size: nat, acked: nat, complete: bool, sink: seq<byte>, expected: Option<Digest>)

  datatype ReceiverState = ReceiverState(transferId: nat, slots: seq<Slot>, doneEmitted: bool, aborted: bool)
  {
    predicate IsComplete() {
      !aborted && slots != [] && forall i :: 0 <= i < |slots| ==> slots[i].complete
    }
  }

  /** The caller's policy; `safeName` stands for resolution inside the quarantine directory. */
  datatype Config = Config(safeName: string -> bool, expected: seq<Option<Digest>>,
                           maxFileSize: Option<nat>, maxFiles: Option<nat>, maxTotalBytes: Option<nat>)

  // ---- Finalizing ---------------------------------------------------------------

  predicate Reached(s: Slot) { !s.complete && s.acked >= s.size }

  /** `finish()` on slot `i` succeeds and its digest is the expected one. */
  predicate Verified(slots: seq<Slot>, i: nat, sha: Sha, faults: set<nat>)
    requires i < |slots|
  {
    i !in faults && (slots[i].expected.Some? ==> sha(slots[i].sink) == slots[i].expected.value)
  }

  /** The first slot at or after `k` that has its bytes but is not ok, or |slots|. */
  function FirstBad(slots: seq<Slot>, k: nat, sha: Sha, faults: set<nat>): (b: nat)
    requires k <= |slots|
    ensures k <= b <= |slots|
    ensures b < |slots| ==> Reached(slots[b]) && !Verified(slots, b, sha, faults)
    ensures forall j :: k <= j < b ==> Reached(slots[j]) ==> Verified(slots, j, sha, faults)
    decreases |slots| - k
  {
    if k == |slots| || (Reached(slots[k]) && !Verified(slots, k, sha, faults)) then k
    else FirstBad(slots, k + 1, sha, faults)
  }

  function MarkedBelow(slots: seq<Slot>, b: nat): seq<Slot> {
    seq(|slots|, i requires 0 <= i < |slots| =>
      if i < b && Reached(slots[i]) then slots[i].(complete := true) else slots[i])
  }

  function Aborting(r: ReceiverState): ReceiverState { r.(aborted := true, doneEmitted := true) }

  function Finalizing(r: ReceiverState, sha: Sha, faults: set<nat>): (ReceiverState, Option<FileDone>) {
    var b := FirstBad(r.slots, 0, sha, faults);
    var r' := r.(slots := MarkedBelow(r.slots, b));
    if b < |r.slots| then (Aborting(r'), Some(FileDone(r.transferId, false)))
    else if !r.doneEmitted && forall i :: 0 <= i < |r'.slots| ==> r'.slots[i].complete then
      (r'.(doneEmitted := true), Some(FileDone(r.transferId, true)))
    else (r', None)
  }

  // ---- FileChunk ----------------------------------------------------------------

  function Reply(done: Option<FileDone>): seq<Outbound> {
    match done case None => [] case Some(d) => [Done(d)]
  }

  /** `writeOk` and `faults` are what the sinks do: this write, and the `finish()` calls that fail. */
  function Receiving(r: ReceiverState, c: FileChunk, sha: Sha, writeOk: bool, faults: set<nat>)
    : (ReceiverState, Result<seq<Outbound>, FileError>)
  {
    if c.transferId != r.transferId then (r, Err(UnknownTransfer(c.transferId)))
    else if r.aborted then (r, Ok([]))
    else if |c.data| > MAX_CHUNK_SIZE then (r, Err(ChunkTooLarge(|c.data|)))
    else if c.fileIndex >= |r.slots| then (r, Err(UnknownFileIndex(c.fileIndex)))
    else
      var slot := r.slots[c.fileIndex];
      var end := c.offset + |c.data|;
      if slot.complete then (r, Ok([Ack(FileAck(r.transferId, c.fileIndex, slot.acked))]))
      else if end > U64_MAX || end > slot.size then (r, Err(OffsetOutOfRange(c.fileIndex, c.offset)))
      else if c.offset != slot.acked then (r, Ok([Ack(FileAck(r.transferId, c.fileIndex, slot.acked))]))
      else if !writeOk then (Aborting(r), Ok([Done(FileDone(r.transferId, false))]))
      else
        var stored := r.slots[c.fileIndex := slot.(acked := end, sink := slot.sink + c.data)];
        var (r', done) := Finalizing(r.(slots := stored), sha, faults);
        (r', Ok([Ack(FileAck(r.transferId, c.fileIndex, end))] + Reply(done)))
  }

  // ---- FileOffer ----------------------------------------------------------------

  function TotalSize(files: seq<FileEntry>): nat {
    if files == [] then 0 else TotalSize(files[..|files| - 1]) + files[|files| - 1].size
  }

  /** The admission bounds, stated without the accumulator that checks them. */
  predicate Admissible(offer: FileOffer, config: Config) {
    && (config.maxFiles.Some? ==> |offer.files| <= config.maxFiles.value)
    && (config.maxFileSize.Some? ==>
          forall i :: 0 <= i < |offer.files| ==> offer.files[i].size <= config.maxFileSize.value)
    && (config.maxTotalBytes.Some? ==> Min(TotalSize(offer.files), U64_MAX) <= config.maxTotalBytes.value)
  }

  function OutOfBand(config: Config, i: nat): Option<Digest> {
    if i < |config.expected| then config.expected[i] else None
  }

  /** Name safe, in-band digest well formed and not in conflict with the caller's. */
  predicate EntryOk(i: nat, entry: FileEntry, config: Config) {
    && config.safeName(entry.name)
    && (entry.sha256.Some? ==> |entry.sha256.value| == DIGEST_LEN)
    && (entry.sha256.Some? && OutOfBand(config, i).Some? ==> entry.sha256 == OutOfBand(config, i))
  }

  function ExpectedDigest(i: nat, entry: FileEntry, config: Config): Option<Digest> {
    if OutOfBand(config, i).Some? then OutOfBand(config, i) else entry.sha256
  }

  /** What `make_sink` gives for each file: the bytes already held, or an error. */
  type Sinks = seq<Option<seq<byte>>>

  /** The first file whose sink fails to open or holds more than the offered size, or |files|. */
  function FirstUnusable(files: seq<FileEntry>, sinks: Sinks, k: nat): (u: nat)
    requires k <= |files| == |sinks|
    ensures k <= u <= |files|
    ensures forall j :: k <= j < u ==> sinks[j].Some? && |sinks[j].value| <= files[j].size
    ensures u < |files| ==> sinks[u].None? || |sinks[u].value| > files[u].size
    decreases |files| - k
  {
    if k == |files| || sinks[k].None? || |sinks[k].value| > files[k].size then k
    else FirstUnusable(files, sinks, k + 1)
  }

  function FreshSlot(i: nat, entry: FileEntry, config: Config, held: seq<byte>): Slot {
    Slot(entry.size, |held|, false, held, ExpectedDigest(i, entry, config))
  }

  /** One resume point per file that already holds bytes, in file order. */
  function ResumePoints(sinks: Sinks, n: nat): seq<ResumePoint>
    requires n <= |sinks|
  {
    if n == 0 then []
    else if sinks[n - 1].Some? && |sinks[n - 1].value| > 0 then
      ResumePoints(sinks, n - 1) + [ResumePoint(n - 1, |sinks[n - 1].value|)]
    else ResumePoints(sinks, n - 1)
  }

  function Rejected(id: nat): (ReceiverState, seq<Outbound>) {
    (ReceiverState(id, [], true, true), [Reject(id)])
  }

  function Offered(offer: FileOffer, config: Config, sinks: Sinks, sha: Sha, faults: set<nat>)
    : Result<(ReceiverState, seq<Outbound>), FileError>
    requires |sinks| == |offer.files|
  {
    var n := |offer.files|;
    if n == 0 then Err(Protocol)
    else if !Admissible(offer, config) || exists i :: 0 <= i < n && !EntryOk(i, offer.files[i], config)
    then Ok(Rejected(offer.transferId))
    else
      var u := FirstUnusable(offer.files, sinks, 0);
      if u < n && sinks[u].None? then Err(Sink)
      else if u < n then Ok(Rejected(offer.transferId))
      else
        var slots := FreshSlots(offer, config, sinks);
        var (r, done) := Finalizing(ReceiverState(offer.transferId, slots, false, false), sha, faults);
        Ok((r, [Accept(FileAccept(offer.transferId, ResumePoints(sinks, n)))] + Reply(done)))
  }

  /** The saturating accumulator decides exactly the admission bounds. */
  method CheckLimits(offer: FileOffer, config: Config) returns (ok: bool)
    ensures ok <==> Admissible(offer, config)
  {
    if config.maxFiles.Some? && |offer.files| > config.maxFiles.value { return false; }
    var total := 0;
    for i := 0 to |offer.files|
      invariant total == Min(TotalSize(offer.files[..i]), U64_MAX)
      invariant config.maxFileSize.Some? ==>
                  forall j :: 0 <= j < i ==> offer.files[j].size <= config.maxFileSize.value
    {
      if config.maxFileSize.Some? && offer.files[i].size > config.maxFileSize.value { return false; }
      assert offer.files[..i + 1][..i] == offer.files[..i];
      total := SatAdd64(total, offer.files[i].size);
    }
    assert offer.files[..|offer.files|] == offer.files;
    ok := config.maxTotalBytes.None? || total <= config.maxTotalBytes.value;
  }

  /** Settles the digest to verify; `Err` stands for the reject reason. */
  method ValidateEntry(i: nat, entry: FileEntry, config: Config) returns (r: Result<Option<Digest>, ()>)
    ensures r.Ok? <==> EntryOk(i, entry, config)
    ensures r.Ok? ==> r.value == ExpectedDigest(i, entry, config)
  {
    if !config.safeName(entry.name) { return Err(()); }
    var outOfBand := if i < |config.expected| then config.expected[i] else None;
    if entry.sha256.Some? && |entry.sha256.value| != DIGEST_LEN { return Err(()); }
    if outOfBand.Some? && entry.sha256.Some? && outOfBand.value != entry.sha256.value { return Err(()); }
    r := Ok(if outOfBand.Some? then outOfBand else entry.sha256);
  }

  /** Every entry is validated before any sink is opened; `None` is a reject. */
  method ValidateEntries(offer: FileOffer, config: Config) returns (plans: Option<seq<Option<Digest>>>)
    ensures plans.None? <==> exists i :: 0 <= i < |offer.files| && !EntryOk(i, offer.files[i], config)
    ensures plans.Some? ==> |plans.value| == |offer.files| && forall i :: 0 <= i < |offer.files| ==>
              plans.value[i] == ExpectedDigest(i, offer.files[i], config)
  {
    var ps := [];
    for i := 0 to |offer.files|
      invariant |ps| == i
      invariant forall j :: 0 <= j < i ==> EntryOk(j, offer.files[j], config)
      invariant forall j :: 0 <= j < i ==> ps[j] == ExpectedDigest(j, offer.files[j], config)
    {
      var plan := ValidateEntry(i, offer.files[i], config);
      if plan.Err? { return None; }
      ps := ps + [plan.value];
    }
    plans := Some(ps);
  }

  function FreshSlots(offer: FileOffer, config: Config, sinks: Sinks): seq<Slot>
    requires |sinks| == |offer.files| && forall i :: 0 <= i < |sinks| ==> sinks[i].Some?
  {
    seq(|sinks|, i requires 0 <= i < |sinks| => FreshSlot(i, offer.files[i], config, sinks[i].value))
  }

  /** Opens the sinks in order: an open error, an over-long prefix (a reject), or all slots. */
  method OpenSinks(offer: FileOffer, config: Config, plans: seq<Option<Digest>>, sinks: Sinks)
    returns (r: Result<Option<(seq<Slot>, seq<ResumePoint>)>, ()>)
    requires |plans| == |sinks| == |offer.files|
    requires forall i :: 0 <= i < |plans| ==> plans[i] == ExpectedDigest(i, offer.files[i], config)
    ensures var u := FirstUnusable(offer.files, sinks, 0);
            && (r.Err? <==> u < |sinks| && sinks[u].None?)
            && (r.Ok? && r.value.None? <==> u < |sinks| && sinks[u].Some?)
            && (u == |sinks| ==> r == Ok(Some((FreshSlots(offer, config, sinks), ResumePoints(sinks, u)))))
  {
    var slots := [];
    var resume := [];
    for i := 0 to |sinks|
      invariant |slots| == i
      invariant FirstUnusable(offer.files, sinks, 0) == FirstUnusable(offer.files, sinks, i)
      invariant forall j :: 0 <= j < i ==> sinks[j].Some?
      invariant forall j :: 0 <= j < i ==> slots[j] == FreshSlot(j, offer.files[j], config, sinks[j].value)
      invariant resume == ResumePoints(sinks, i)
    {
      if sinks[i].None? { return Err(()); }
      var held := sinks[i].value;
      if |held| > offer.files[i].size { return Ok(None); }
      if |held| > 0 { resume := resume + [ResumePoint(i, |held|)]; }
      slots := slots + [Slot(offer.files[i].size, |held|, false, held, plans[i])];
    }
    assert slots == FreshSlots(offer, config, sinks);
    r := Ok(Some((slots, resume)));
  }

  // ---- The machine --------------------------------------------------------------

  class Receiver {
    const transferId: nat
    var slots: seq<Slot>
    var doneEmitted: bool
    var aborted: bool

    ghost function View(): ReceiverState
      reads this
    {
      ReceiverState(transferId, slots, doneEmitted, aborted)
    }

    constructor (transferId: nat, slots: seq<Slot>, terminated: bool)
      ensures View() == ReceiverState(transferId, slots, terminated, terminated)
    {
      this.transferId, this.slots := transferId, slots;
      doneEmitted, aborted := terminated, terminated;
    }

    static method AcceptOffer(offer: FileOffer, config: Config, sinks: Sinks, sha: Sha, faults: set<nat>)
      returns (r: Result<(Receiver, seq<Outbound>), FileError>)
      requires |sinks| == |offer.files|
      ensures r.Ok? ==> fresh(r.value.0)
      ensures Offered(offer, config, sinks, sha, faults) ==
              if r.Ok? then Ok((r.value.0.View(), r.value.1)) else Err(r.error)
    {
      var n := |offer.files|;
      if n == 0 { return Err(Protocol); }
      var within := CheckLimits(offer, config);
      if !within {
        var refused := new Receiver(offer.transferId, [], true);
        return Ok((refused, [Reject(offer.transferId)]));
      }
      var plans := ValidateEntries(offer, config);
      if plans.None? {
        var refused := new Receiver(offer.transferId, [], true);
        return Ok((refused, [Reject(offer.transferId)]));
      }
      var opening := OpenSinks(offer, config, plans.value, sinks);
      if opening.Err? { return Err(Sink); }
      if opening.value.None? {
        var refused := new Receiver(offer.transferId, [], true);
        return Ok((refused, [Reject(offer.transferId)]));
      }
      var (slots, resume) := opening.value.value;
      var recv := new Receiver(offer.transferId, slots, false);
      var out := [Accept(FileAccept(offer.transferId, resume))];
      var done := recv.FinalizeCompletedFiles(sha, faults);
      r := Ok((recv, out + Reply(done)));
    }

    method Abort() returns (d: FileDone)
      modifies this
      ensures View() == Aborting(old(View()))
      ensures d == FileDone(transferId, false)
    {
      aborted, doneEmitted := true, true;
      d := FileDone(transferId, false);
    }

    method FinalizeCompletedFiles(sha: Sha, faults: set<nat>) returns (done: Option<FileDone>)
      modifies this
      ensures (View(), done) == Finalizing(old(View()), sha, faults)
    {
      ghost var before := slots;
      for i := 0 to |slots|
        invariant View() == old(View()).(slots := slots)
        invariant slots == MarkedBelow(before, i)
        invariant FirstBad(before, 0, sha, faults) == FirstBad(before, i, sha, faults)
      {
        if slots[i].complete || slots[i].acked < slots[i].size { continue; }
        var ok := i !in faults && (slots[i].expected.None? || sha(slots[i].sink) == slots[i].expected.value);
        if !ok {
          var d := Abort();
          return Some(d);
        }
        slots := slots[i := slots[i].(complete := true)];
      }
      if !doneEmitted {
        for i := 0 to |slots|
          invariant forall j :: 0 <= j < i ==> slots[j].complete
        {
          if !slots[i].complete { return None; }
        }
        doneEmitted := true;
        return Some(FileDone(transferId, true));
      }
      done := None;
    }

    method OnChunk(chunk: FileChunk, sha: Sha, writeOk: bool, faults: set<nat>)
      returns (r: Result<seq<Outbound>, FileError>)
      modifies this
      ensures (View(), r) == Receiving(old(View()), chunk, sha, writeOk, faults)
    {
      if chunk.transferId != transferId { return Err(UnknownTransfer(chunk.transferId)); }
      if aborted { return Ok([]); }
      if |chunk.data| > MAX_CHUNK_SIZE { return Err(ChunkTooLarge(|chunk.data|)); }
      if chunk.fileIndex >= |slots| { return Err(UnknownFileIndex(chunk.fileIndex)); }
      var slot := slots[chunk.fileIndex];
      if slot.complete { return Ok([Ack(FileAck(transferId, chunk.fileIndex, slot.acked))]); }
      var end := chunk.offset + |chunk.data|;
      if end > U64_MAX || end > slot.size { return Err(OffsetOutOfRange(chunk.fileIndex, chunk.offset)); }
      if chunk.offset != slot.acked { return Ok([Ack(FileAck(transferId, chunk.fileIndex, slot.acked))]); }
      if !writeOk {
        var d := Abort();
        return Ok([Done(d)]);
      }
      slots := slots[chunk.fileIndex := slot.(acked := end, sink := slot.sink + chunk.data)];
      var out := [Ack(FileAck(transferId, chunk.fileIndex, end))];
      var done := FinalizeCompletedFiles(sha, faults);
      r := Ok(out + Reply(done));
    }

    method IsComplete() returns (b: bool)
      ensures b == View().IsComplete()
    {
      if aborted || |slots| == 0 { return false; }
      for i := 0 to |slots|
        invariant forall j :: 0 <= j < i ==> slots[j].complete
      {
        if !slots[i].complete { return false; }
      }
      b := true;
    }
  }
}
