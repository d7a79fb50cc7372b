/** Each half alone, against any peer: what it keeps whatever messages arrive. */
module FileSafety {
  import opened Common
  import opened FileTypes
  import opened FileSender
  import opened FileReceiver
  import opened FileChannels

  // ---- Which offers are accepted --------------------------------------------------------------

  predicate IsAccepted(r: Result<(ReceiverState, seq<Outbound>), FileError>) {
    r.Ok? && r.value.1 != [] && r.value.1[0].Accept?
  }

  /** Within the caller's bounds on count, size and total. */
  predicate Bounded(offer: FileOffer, config: Config) {
    && (config.maxFiles == None || |offer.files| <= config.maxFiles.value)
    && (config.maxTotalBytes == None || TotalSize(offer.files) <= config.maxTotalBytes.value
        || config.maxTotalBytes.value >= U64_MAX)
    && forall i :: 0 <= i < |offer.files| ==>
         config.maxFileSize == None || offer.files[i].size <= config.maxFileSize.value
  }

  /** A safe name, and a digest of 32 bytes that agrees with the caller's, if each gives one. */
  predicate Trusted(offer: FileOffer, config: Config, i: nat)
    requires i < |offer.files|
  {
    var entry := offer.files[i];
    && config.safeName(entry.name)
    && (entry.sha256.Some? ==>
          && |entry.sha256.value| == 32
          && (i < |config.expected| && config.expected[i].Some? ==> config.expected[i] == entry.sha256))
  }

  /** Sink `u` does not open, and all before it are usable. */
  predicate FailsFirst(offer: FileOffer, sinks: Sinks, u: nat)
    requires |sinks| == |offer.files| && u < |sinks|
  {
    sinks[u].None? && forall j :: 0 <= j < u ==> sinks[j].Some? && |sinks[j].value| <= offer.files[j].size
  }

  /** The total is the sum: nothing for no files, a file's size for one, and additive. */
  lemma {:induction false} TotalIsSum(a: seq<FileEntry>, b: seq<FileEntry>, x: FileEntry)
    ensures TotalSize([]) == 0 && TotalSize([x]) == x.size && TotalSize(a + b) == TotalSize(a) + TotalSize(b)
  {
    assert [x][..0] == [];
    if b == [] {
      assert a + b == a;
    } else {
      assert (a + b)[..|a + b| - 1] == a + b[..|b| - 1];
      TotalIsSum(a, b[..|b| - 1], x);
    }
  }

  /** An offer is accepted exactly when it has files, respects the bounds, every entry is trusted, and every sink
      opens without holding more than its file. An empty offer is a protocol error; a trusted one whose first unusable
      sink failed to open is a sink error; any other is refused by a dead receiver that says so. */
  lemma {:induction false} AcceptIff(offer: FileOffer, config: Config, sinks: Sinks, sha: Sha, faults: set<nat>)
    requires |sinks| == |offer.files|
    ensures var r := Offered(offer, config, sinks, sha, faults);
            && (IsAccepted(r) <==>
                  && offer.files != [] && Bounded(offer, config)
                  && (forall i :: 0 <= i < |offer.files| ==> Trusted(offer, config, i))
                  && (forall i :: 0 <= i < |sinks| ==> sinks[i].Some? && |sinks[i].value| <= offer.files[i].size))
            && (r.Ok? && !IsAccepted(r) ==>
                  r.value.1 == [Reject(offer.transferId)] && r.value.0.aborted && r.value.0.slots == [])
            && (r == Err(Protocol) <==> offer.files == [])
            && (r == Err(Sink) <==>
                  && offer.files != [] && Bounded(offer, config)
                  && (forall i :: 0 <= i < |offer.files| ==> Trusted(offer, config, i))
                  && exists u :: 0 <= u < |sinks| && FailsFirst(offer, sinks, u))
            && (r.Err? ==> r.error == Protocol || r.error == Sink)
  {
    assert Admissible(offer, config) <==> Bounded(offer, config);
    forall i | 0 <= i < |offer.files| ensures EntryOk(i, offer.files[i], config) <==> Trusted(offer, config, i) {}
    if offer.files != [] && Bounded(offer, config) && forall i :: 0 <= i < |offer.files| ==> Trusted(offer, config, i) {
      var u := FirstUnusable(offer.files, sinks, 0);
      if u < |sinks| {
        assert !(sinks[u].Some? && |sinks[u].value| <= offer.files[u].size);
        if sinks[u].None? { assert FailsFirst(offer, sinks, u); }
      }
    }
  }

  // ---- The receiver against any sender ----------------------------------------------------------

  /** A chunk, and what the sinks do with it. */
  datatype Delivery = Delivery(chunk: FileChunk, writeOk: bool, faults: set<nat>)

  function AfterChunks(r: ReceiverState, ds: seq<Delivery>, sha: Sha): ReceiverState {
    if ds == [] then r
    else
      var d := ds[|ds| - 1];
      Receiving(AfterChunks(r, ds[..|ds| - 1], sha), d.chunk, sha, d.writeOk, d.faults).0
  }

  /** Every reply so far, in order. */
  function Replies(r: ReceiverState, ds: seq<Delivery>, sha: Sha): seq<Outbound> {
    if ds == [] then []
    else
      var d := ds[|ds| - 1];
      var out := Receiving(AfterChunks(r, ds[..|ds| - 1], sha), d.chunk, sha, d.writeOk, d.faults).1;
      Replies(r, ds[..|ds| - 1], sha) + (if out.Ok? then out.value else [])
  }

  /** The ack point is the length of the sink, never beyond the size; a complete file is full and verified. */
  predicate SlotSafe(s: Slot, sha: Sha) {
    && |s.sink| == s.acked <= s.size
    && (s.complete ==> s.acked == s.size && (s.expected.Some? ==> sha(s.sink) == s.expected.value))
  }

  predicate Safe(r: ReceiverState, sha: Sha) {
    && (forall i :: 0 <= i < |r.slots| ==> SlotSafe(r.slots[i], sha))
    && (r.aborted ==> r.doneEmitted)
    && (r.doneEmitted && !r.aborted ==> forall i :: 0 <= i < |r.slots| ==> r.slots[i].complete)
  }

  /** Only appended to, and only up to what it expects. */
  predicate Extends(s: Slot, s': Slot) { s.sink <= s'.sink && s'.size == s.size && s'.expected == s.expected }

  predicate Grown(r: ReceiverState, r': ReceiverState) {
    |r'.slots| == |r.slots| && forall i :: 0 <= i < |r.slots| ==> Extends(r.slots[i], r'.slots[i])
  }

  lemma {:induction false} FinalizeSafe(r: ReceiverState, sha: Sha, faults: set<nat>)
    requires Safe(r, sha) && !r.aborted
    ensures var (r', done) := Finalizing(r, sha, faults);
            && Safe(r', sha) && Grown(r, r')
            && DoneCount(Reply(done)) + (if r.doneEmitted then 1 else 0) == (if r'.doneEmitted then 1 else 0)
            && (done.Some? && done.value.ok ==> !r'.aborted)
            && (r'.aborted ==> done == Some(FileDone(r.transferId, false)))
  {
    var (r', done) := Finalizing(r, sha, faults);
    if done.Some? { assert Reply(done)[1..] == []; }
    if r.doneEmitted { assert FirstBad(r.slots, 0, sha, faults) == |r.slots|; }
  }

  /** Finalizing aborts exactly if some file that now has all its bytes fails to finish or has the wrong digest, and
      succeeds exactly if after it all are complete for the first time. */
  lemma {:induction false} FinalizeAbortsIff(r: ReceiverState, sha: Sha, faults: set<nat>)
    requires !r.aborted
    ensures var (r', done) := Finalizing(r, sha, faults);
            && (r'.aborted <==>
                  exists i :: 0 <= i < |r.slots| && !r.slots[i].complete && r.slots[i].acked >= r.slots[i].size
                    && (i in faults
                        || (r.slots[i].expected.Some? && sha(r.slots[i].sink) != r.slots[i].expected.value)))
            && (r'.aborted <==> done == Some(FileDone(r.transferId, false)))
            && (done == Some(FileDone(r.transferId, true)) <==>
                  !r'.aborted && !r.doneEmitted && forall i :: 0 <= i < |r'.slots| ==> r'.slots[i].complete)
  {
    var b := FirstBad(r.slots, 0, sha, faults);
    if b < |r.slots| { assert Reached(r.slots[b]) && !Verified(r.slots, b, sha, faults); }
    forall i | 0 <= i < b && Reached(r.slots[i]) ensures Verified(r.slots, i, sha, faults) {}
  }

  /** The chunk appended to the sink of the file it continues. */
  function Appended(r: ReceiverState, c: FileChunk): ReceiverState
    requires c.fileIndex < |r.slots|
  {
    var slot := r.slots[c.fileIndex];
    r.(slots := r.slots[c.fileIndex := slot.(acked := c.offset + |c.data|, sink := slot.sink + c.data)])
  }

  lemma {:induction false} AppendSafe(r: ReceiverState, c: FileChunk, sha: Sha)
    requires Safe(r, sha) && !r.aborted && c.fileIndex < |r.slots| && !r.slots[c.fileIndex].complete
    requires c.offset == r.slots[c.fileIndex].acked && c.offset + |c.data| <= r.slots[c.fileIndex].size
    ensures Safe(Appended(r, c), sha) && Grown(r, Appended(r, c)) && !r.doneEmitted
  {
  }

  lemma {:induction false} StoreSafe(r: ReceiverState, c: FileChunk, sha: Sha, faults: set<nat>)
    requires Safe(r, sha) && !r.aborted && c.fileIndex < |r.slots| && !r.slots[c.fileIndex].complete
    requires c.offset == r.slots[c.fileIndex].acked && c.offset + |c.data| <= r.slots[c.fileIndex].size
    ensures var (r', done) := Finalizing(Appended(r, c), sha, faults);
            var out := [Ack(FileAck(r.transferId, c.fileIndex, c.offset + |c.data|))] + Reply(done);
            Safe(r', sha) && Grown(r, r') && DoneCount(out) == (if r'.doneEmitted then 1 else 0) && !r.doneEmitted
  {
    AppendSafe(r, c, sha);
    FinalizeSafe(Appended(r, c), sha, faults);
    var (r', done) := Finalizing(Appended(r, c), sha, faults);
    GrownTrans(r, Appended(r, c), r');
    var out := [Ack(FileAck(r.transferId, c.fileIndex, c.offset + |c.data|))] + Reply(done);
    assert out[1..] == Reply(done);
  }

  predicate Stores(r: ReceiverState, d: Delivery) {
    var c := d.chunk;
    && c.transferId == r.transferId && !r.aborted && |c.data| <= MAX_CHUNK_SIZE && c.fileIndex < |r.slots|
    && !r.slots[c.fileIndex].complete && c.offset == r.slots[c.fileIndex].acked && d.writeOk
    && c.offset + |c.data| <= r.slots[c.fileIndex].size && c.offset + |c.data| <= U64_MAX
  }

  lemma {:induction false} OtherwiseSafe(r: ReceiverState, d: Delivery, sha: Sha)
    requires Safe(r, sha) && !Stores(r, d)
    ensures var (r', out) := Receiving(r, d.chunk, sha, d.writeOk, d.faults);
            && (r' == r || (r' == Aborting(r) && !r.aborted && !r.doneEmitted && out.Ok? && DoneCount(out.value) == 1))
            && (r' == r && out.Ok? ==> DoneCount(out.value) == 0)
            && (out.Err? || r.aborted ==> r' == r)
  {
    var out := Receiving(r, d.chunk, sha, d.writeOk, d.faults).1;
    if out.Ok? && out.value != [] { assert out.value[1..] == []; }
  }

  lemma {:induction false} ChunkSafe(r: ReceiverState, d: Delivery, sha: Sha)
    requires Safe(r, sha)
    ensures var (r', out) := Receiving(r, d.chunk, sha, d.writeOk, d.faults);
            && Safe(r', sha) && Grown(r, r')
            && (out.Err? || r.aborted ==> r' == r)
            && (out.Ok? ==>
                  DoneCount(out.value) + (if r.doneEmitted then 1 else 0) == (if r'.doneEmitted then 1 else 0))
  {
    if Stores(r, d) { StoreSafe(r, d.chunk, sha, d.faults); } else { OtherwiseSafe(r, d, sha); }
  }

  /** A chunk is refused exactly if it is of another transfer, or the receiver is live and the chunk is over 1 MiB, of
      no file, or reaches past the end of an unfinished one. */
  lemma {:induction false} RefusedIff(r: ReceiverState, d: Delivery, sha: Sha)
    ensures var c := d.chunk;
            Receiving(r, c, sha, d.writeOk, d.faults).1.Err? <==>
              || c.transferId != r.transferId
              || (!r.aborted
                  && (|c.data| > 1048576 || c.fileIndex >= |r.slots|
                      || (!r.slots[c.fileIndex].complete
                          && c.offset + |c.data| > Min(r.slots[c.fileIndex].size, U64_MAX))))
  {
  }

  /** Every chunk a live receiver takes is answered: by a failed FileDone if the write fails, else first of all by an
      ack that names the bytes of its file now held, whether it was next, early, late or of a finished file. */
  lemma {:induction false} AnswersWithAck(r: ReceiverState, d: Delivery, sha: Sha)
    requires Safe(r, sha) && !r.aborted && Receiving(r, d.chunk, sha, d.writeOk, d.faults).1.Ok?
    ensures var (c, (r', out)) := (d.chunk, Receiving(r, d.chunk, sha, d.writeOk, d.faults));
            && c.fileIndex < |r'.slots| && out.value != []
            && (if out.value[0].Ack?
                then out.value[0] == Ack(FileAck(r.transferId, c.fileIndex, |r'.slots[c.fileIndex].sink|))
                else !d.writeOk && out.value == [Done(FileDone(r.transferId, false))])
            && (|r'.slots[c.fileIndex].sink| > |r.slots[c.fileIndex].sink| ==> c.offset == |r.slots[c.fileIndex].sink|)
  {
    if Stores(r, d) {
      AppendSafe(r, d.chunk, sha);
      FinalizeSafe(Appended(r, d.chunk), sha, d.faults);
      FinalizeSinks(Appended(r, d.chunk), sha, d.faults, d.chunk.fileIndex);
    }
  }

  lemma {:induction false} FinalizeSinks(r: ReceiverState, sha: Sha, faults: set<nat>, i: nat)
    requires i < |r.slots|
    ensures |Finalizing(r, sha, faults).0.slots| == |r.slots|
    ensures Finalizing(r, sha, faults).0.slots[i].sink == r.slots[i].sink
  {
  }

  /** Whatever chunks arrive from whomever: sinks are only appended to, stay within their size and in step with their
      ack point; a file counts as complete only full and verified; an abort is final; one FileDone at most. */
  lemma {:induction false} ReceiverIsSafe(r: ReceiverState, ds: seq<Delivery>, sha: Sha)
    requires Safe(r, sha)
    ensures Safe(AfterChunks(r, ds, sha), sha) && Grown(r, AfterChunks(r, ds, sha))
    ensures r.aborted ==> AfterChunks(r, ds, sha) == r
    ensures DoneCount(Replies(r, ds, sha)) + (if r.doneEmitted then 1 else 0) ==
            (if AfterChunks(r, ds, sha).doneEmitted then 1 else 0)
  {
    if ds != [] {
      var init, d := ds[..|ds| - 1], ds[|ds| - 1];
      ReceiverIsSafe(r, init, sha);
      var mid := AfterChunks(r, init, sha);
      ChunkSafe(mid, d, sha);
      var out := Receiving(mid, d.chunk, sha, d.writeOk, d.faults).1;
      DoneCountAppend(Replies(r, init, sha), if out.Ok? then out.value else []);
      GrownTrans(r, mid, AfterChunks(r, ds, sha));
    }
  }

  lemma {:induction false} GrownTrans(a: ReceiverState, b: ReceiverState, c: ReceiverState)
    requires Grown(a, b) && Grown(b, c)
    ensures Grown(a, c)
  {
    forall i | 0 <= i < |a.slots| ensures Extends(a.slots[i], c.slots[i]) {
      assert Extends(a.slots[i], b.slots[i]) && Extends(b.slots[i], c.slots[i]);
    }
  }

  /** Every accepted offer starts safe. */
  lemma {:induction false} AcceptedIsSafe(offer: FileOffer, config: Config, sinks: Sinks, sha: Sha, faults: set<nat>)
    requires |sinks| == |offer.files| && IsAccepted(Offered(offer, config, sinks, sha, faults))
    ensures Safe(Offered(offer, config, sinks, sha, faults).value.0, sha)
  {
    AcceptIff(offer, config, sinks, sha, faults);
    var r0 := ReceiverState(offer.transferId, FreshSlots(offer, config, sinks), false, false);
    forall i | 0 <= i < |r0.slots| ensures SlotSafe(r0.slots[i], sha) {
      assert r0.slots[i] == FreshSlot(i, offer.files[i], config, sinks[i].value);
    }
    FinalizeSafe(r0, sha, faults);
  }

  // ---- The sender against any receiver ------------------------------------------------------------

  datatype Input = GotAccept(a: FileAccept) | GotAck(k: FileAck) | GotDone(d: FileDone) | Poll(read: Read)

  function Handling(s: SenderState, i: Input): (SenderState, bool) {
    match i
    case GotAccept(a) => (Accepting(s, a).0, Accepting(s, a).1.Ok?)
    case GotAck(k) => (Acking(s, k).0, Acking(s, k).1.Ok?)
    case GotDone(d) => (Finishing(s, d).0, Finishing(s, d).1.Ok?)
    case Poll(read) => (Polling(s, read).0, Polling(s, read).1.Ok?)
  }

  function AfterInputs(s: SenderState, ins: seq<Input>): SenderState {
    if ins == [] then s else Handling(AfterInputs(s, ins[..|ins| - 1]), ins[|ins| - 1]).0
  }

  /** acked <= sent <= size, and at most 8 MiB between them. */
  predicate WindowsHold(s: SenderState) {
    forall i :: 0 <= i < |s.tracks| ==>
      s.tracks[i].acked <= s.tracks[i].sent <= |s.tracks[i].source| && s.tracks[i].sent - s.tracks[i].acked <= 8388608
  }

  /** Nothing is taken back: neither marks, nor the accept, nor an abort. */
  predicate Forward(s: SenderState, s': SenderState) {
    && |s'.tracks| == |s.tracks| && s'.transferId == s.transferId
    && (s.accepted ==> s'.accepted) && (s.aborted ==> s'.aborted)
    && forall i :: 0 <= i < |s.tracks| ==>
         && s'.tracks[i].source == s.tracks[i].source
         && (s.accepted ==> s.tracks[i].sent <= s'.tracks[i].sent && s.tracks[i].acked <= s'.tracks[i].acked)
  }

  predicate Foreign(s: SenderState, i: Input) {
    match i
    case GotAccept(a) => a.transferId != s.transferId
    case GotAck(k) => k.transferId != s.transferId
    case GotDone(d) => d.transferId != s.transferId
    case Poll(_) => false
  }

  lemma {:induction false} ResumeWithin(tracks: seq<Track>, resume: seq<ResumePoint>, i: nat)
    requires i < |tracks| && forall k :: 0 <= k < |resume| ==> ResumeFault(tracks, resume, k).None?
    ensures ResumeOf(resume, i).Some? ==> ResumeOf(resume, i).value <= tracks[i].Size()
  {
    if resume != [] {
      var init := resume[..|resume| - 1];
      assert ResumeFault(tracks, resume, |resume| - 1).None?;
      forall k | 0 <= k < |init| ensures ResumeFault(tracks, init, k).None? {
        assert ResumeFault(tracks, resume, k).None? && init[..k] == resume[..k];
      }
      ResumeWithin(tracks, init, i);
    }
  }

  lemma {:induction false} AcceptHolds(s: SenderState, a: FileAccept)
    requires WindowsHold(s)
    ensures WindowsHold(Accepting(s, a).0) && Forward(s, Accepting(s, a).0)
  {
    if Accepting(s, a).1.Ok? {
      NoFault(s.tracks, a.resume, 0);
      forall i | 0 <= i < |s.tracks|
        ensures ResumeOf(a.resume, i).Some? ==> ResumeOf(a.resume, i).value <= s.tracks[i].Size()
      {
        ResumeWithin(s.tracks, a.resume, i);
      }
    }
  }

  lemma {:induction false} AckHolds(s: SenderState, k: FileAck)
    requires WindowsHold(s)
    ensures WindowsHold(Acking(s, k).0) && Forward(s, Acking(s, k).0)
  {
  }

  lemma {:induction false} PollHolds(s: SenderState, read: Read)
    requires WindowsHold(s)
    ensures WindowsHold(Polling(s, read).0) && Forward(s, Polling(s, read).0)
  {
  }

  lemma {:induction false} RefusalHolds(s: SenderState, i: Input)
    ensures var (s', ok) := Handling(s, i);
            && (!ok ==> s' == s) && (Foreign(s, i) ==> !ok)
            && (s'.aborted && !s.aborted ==> i.GotDone? && !i.d.ok)
  {
  }

  lemma {:induction false} InputHolds(s: SenderState, i: Input)
    requires WindowsHold(s)
    ensures var (s', ok) := Handling(s, i);
            && WindowsHold(s') && Forward(s, s')
            && (!ok ==> s' == s) && (Foreign(s, i) ==> !ok)
            && (s'.aborted && !s.aborted ==> i.GotDone? && !i.d.ok)
  {
    RefusalHolds(s, i);
    match i {
      case GotAccept(a) => AcceptHolds(s, a);
      case GotAck(k) => AckHolds(s, k);
      case GotDone(_) =>
      case Poll(read) => PollHolds(s, read);
    }
  }

  // ---- What the sender does with each ----------------------------------------------------------------

  /** Bytes left, and less than 8 MiB of them unacked. */
  predicate WindowOpen(t: Track) { t.sent < |t.source| && t.sent < t.acked + 8388608 }

  /** A poll says nothing exactly while unaccepted, after an abort, or with no window open. Otherwise the first such
      file is read; a failed or empty read is an error; else as much as was read and chunk size, window and file allow
      goes out, from where the file stands. */
  lemma {:induction false} PollIs(s: SenderState, read: Read, i: nat)
    requires WindowsHold(s) && s.chunkSize > 0 && i < |s.tracks| && WindowOpen(s.tracks[i])
    requires forall j :: 0 <= j < i ==> !WindowOpen(s.tracks[j])
    ensures var (s', r) := Polling(s, read);
            if !s.accepted || s.aborted then r == Ok(None)
            else if read.ReadFailed? || read.n == 0 then r.Err?
            else
              var t := s.tracks[i];
              var n := Min(Min(read.n, s.chunkSize), Min(t.acked + 8388608 - t.sent, |t.source| - t.sent));
              && r == Ok(Some(FileChunk(s.transferId, i, t.sent, t.source[t.sent..t.sent + n])))
              && s' == s.(tracks := s.tracks[i := t.(sent := t.sent + n)])
  {
    forall j | 0 <= j < |s.tracks| ensures s.tracks[j].Sendable() <==> WindowOpen(s.tracks[j]) {}
    assert FirstSendable(s.tracks, 0) == i;
  }

  lemma {:induction false} PollIsIdle(s: SenderState, read: Read)
    requires WindowsHold(s) && forall j :: 0 <= j < |s.tracks| ==> !WindowOpen(s.tracks[j])
    ensures Polling(s, read) == (s, Ok(None))
  {
    forall j | 0 <= j < |s.tracks| ensures s.tracks[j].Sendable() <==> WindowOpen(s.tracks[j]) {}
  }

  predicate ResumeFits(s: SenderState, resume: seq<ResumePoint>) {
    && (forall k :: 0 <= k < |resume| ==>
          resume[k].fileIndex < |s.tracks| && resume[k].offset <= |s.tracks[resume[k].fileIndex].source|)
    && (forall j, k :: 0 <= j < k < |resume| ==> resume[j].fileIndex != resume[k].fileIndex)
  }

  lemma {:induction false} FaultsIff(s: SenderState, resume: seq<ResumePoint>)
    ensures FirstFault(s.tracks, resume, 0).None? <==> ResumeFits(s, resume)
  {
    if FirstFault(s.tracks, resume, 0).None? {
      NoFault(s.tracks, resume, 0);
      forall k | 0 <= k < |resume|
        ensures resume[k].fileIndex < |s.tracks| && resume[k].offset <= |s.tracks[resume[k].fileIndex].source|
      {
        assert ResumeFault(s.tracks, resume, k).None?;
      }
      forall j, k | 0 <= j < k < |resume| ensures resume[j].fileIndex != resume[k].fileIndex {
        assert ResumeFault(s.tracks, resume, k).None? && resume[..k][j] == resume[j] && resume[j] in resume[..k];
      }
    }
    if ResumeFits(s, resume) {
      forall k | 0 <= k < |resume| ensures ResumeFault(s.tracks, resume, k).None? {
        forall e | e in resume[..k] ensures e.fileIndex != resume[k].fileIndex {
          var j :| 0 <= j < k && resume[j] == e;
        }
      }
      FaultFree(s.tracks, resume, 0);
    }
  }

  /** An accept is taken exactly once, of this transfer, with each file named at most once and within its size; then the
      named files stand at their offsets, marked as resumed, and the others where they were. */
  lemma {:induction false} AcceptIs(s: SenderState, a: FileAccept)
    ensures var (s', r) := Accepting(s, a);
            && (r.Ok? <==> a.transferId == s.transferId && !s.accepted && ResumeFits(s, a.resume))
            && (r.Ok? ==> s'.accepted && |s'.tracks| == |s.tracks|)
            && (r.Ok? ==> forall k :: 0 <= k < |a.resume| ==>
                  var (f, o) := (a.resume[k].fileIndex, a.resume[k].offset);
                  s'.tracks[f] == s.tracks[f].(sent := o, acked := o, resumed := true))
            && (r.Ok? ==> forall i :: 0 <= i < |s.tracks| && (forall p :: p in a.resume ==> p.fileIndex != i) ==>
                  s'.tracks[i] == s.tracks[i])
  {
    FaultsIff(s, a.resume);
    if Accepting(s, a).1.Ok? {
      forall k | 0 <= k < |a.resume| ensures ResumeOf(a.resume, a.resume[k].fileIndex) == Some(a.resume[k].offset) {
        ResumeOfEntry(a.resume, k);
      }
      forall i | 0 <= i < |s.tracks| && forall p :: p in a.resume ==> p.fileIndex != i
        ensures ResumeOf(a.resume, i).None?
      {
        NotYetResumed(a.resume, i);
      }
    }
  }

  /** Whatever the peer sends, however it polls: the windows hold, marks never go back, what is refused changes
      nothing, and nothing of another transfer is taken. */
  lemma {:induction false} SenderIsSafe(s: SenderState, ins: seq<Input>)
    requires WindowsHold(s)
    ensures WindowsHold(AfterInputs(s, ins)) && Forward(s, AfterInputs(s, ins))
  {
    if ins != [] {
      SenderIsSafe(s, ins[..|ins| - 1]);
      InputHolds(AfterInputs(s, ins[..|ins| - 1]), ins[|ins| - 1]);
    }
  }
}
