/** The sender half of one transfer. */
module FileSender {
  import opened Common
  import opened FileTypes

  /** One offered file. The source is honest: its length is the size it offers. */
  datatype Track = Track(name: string, source: seq<byte>, sha256: Option<Digest>,
                         sent: nat, acked: nat, resumed: bool)
  {
    function Size(): nat { |source| }
    function InFlight(): nat { SatSub(sent, acked) }
    predicate Sendable() { sent < Size() && InFlight() < MAX_IN_FLIGHT_PER_FILE }
    function Want(chunkSize: nat): nat
      requires Sendable()
    {
      Min(Min(chunkSize, MAX_IN_FLIGHT_PER_FILE - InFlight()), Size() - sent)
    }
  }

  datatype SenderState = SenderState(transferId: nat, tracks: seq<Track>, chunkSize: nat,
                                     accepted: bool, aborted: bool)
  {
    predicate Valid() {
      && 0 < |tracks| <= U32_MAX
      && 1 <= chunkSize <= MAX_CHUNK_SIZE
      && forall i :: 0 <= i < |tracks| ==> tracks[i].Size() <= U64_MAX
    }
    predicate IsComplete() {
      !aborted && forall i :: 0 <= i < |tracks| ==> tracks[i].acked >= tracks[i].Size()
    }
  }

  /** What the byte source does on one call: fail, or yield at most `n` bytes (0 is a fault). */
  datatype Read = ReadFailed | ReadUpTo(n: nat)

  // ---- FileAccept -----------------------------------------------------------------

  /** The fault, if any, of the resume point at `pos`, given those before it. */
  function ResumeFault(tracks: seq<Track>, resume: seq<ResumePoint>, pos: nat): Option<FileError>
    requires pos < |resume|
  {
    var r := resume[pos];
    if r.fileIndex >= |tracks| then Some(UnknownFileIndex(r.fileIndex))
    else if r.offset > tracks[r.fileIndex].Size() then Some(OffsetOutOfRange(r.fileIndex, r.offset))
    else if exists e :: e in resume[..pos] && e.fileIndex == r.fileIndex then Some(Protocol)
    else None
  }

  /** The first fault at or after `pos`. */
  function FirstFault(tracks: seq<Track>, resume: seq<ResumePoint>, pos: nat): Option<FileError>
    requires pos <= |resume|
    decreases |resume| - pos
  {
    if pos == |resume| then None
    else if ResumeFault(tracks, resume, pos).Some? then ResumeFault(tracks, resume, pos)
    else FirstFault(tracks, resume, pos + 1)
  }

  /** The offset the resume list declares for file `i`. */
  function ResumeOf(resume: seq<ResumePoint>, i: nat): Option<nat> {
    if resume == [] then None
    else if resume[|resume| - 1].fileIndex == i then Some(resume[|resume| - 1].offset)
    else ResumeOf(resume[..|resume| - 1], i)
  }

  function Resumed(t: Track, offset: Option<nat>): Track {
    match offset
    case None => t
    case Some(o) => t.(sent := o, acked := o, resumed := true)
  }

  function ApplyResume(tracks: seq<Track>, resume: seq<ResumePoint>): seq<Track> {
    seq(|tracks|, i requires 0 <= i < |tracks| => Resumed(tracks[i], ResumeOf(resume, i)))
  }

  function Accepting(s: SenderState, a: FileAccept): (SenderState, Result<(), FileError>) {
    if a.transferId != s.transferId then (s, Err(UnknownTransfer(a.transferId)))
    else if s.accepted then (s, Err(Protocol))
    else match FirstFault(s.tracks, a.resume, 0)
      case Some(e) => (s, Err(e))
      case None => (s.(tracks := ApplyResume(s.tracks, a.resume), accepted := true), Ok(()))
  }

  // ---- FileAck and FileDone -------------------------------------------------------

  function Acking(s: SenderState, a: FileAck): (SenderState, Result<(), FileError>) {
    if a.transferId != s.transferId then (s, Err(UnknownTransfer(a.transferId)))
    else if !s.accepted then (s, Err(Protocol))
    else if a.fileIndex >= |s.tracks| then (s, Err(UnknownFileIndex(a.fileIndex)))
    else
      var t := s.tracks[a.fileIndex];
      if a.ackedThrough > t.Size() || a.ackedThrough > t.sent then
        (s, Err(OffsetOutOfRange(a.fileIndex, a.ackedThrough)))
      else
        (s.(tracks := s.tracks[a.fileIndex := t.(acked := Max(t.acked, a.ackedThrough))]), Ok(()))
  }

  function Finishing(s: SenderState, d: FileDone): (SenderState, Result<(), FileError>) {
    if d.transferId != s.transferId then (s, Err(UnknownTransfer(d.transferId)))
    else (s.(aborted := s.aborted || !d.ok), Ok(()))
  }

  // ---- Polling ----------------------------------------------------------------------

  /** The first file at or after `k` with bytes left and an open window, or |tracks|. */
  function FirstSendable(tracks: seq<Track>, k: nat): (i: nat)
    requires k <= |tracks|
    ensures k <= i <= |tracks|
    ensures i < |tracks| ==> tracks[i].Sendable()
    ensures forall j :: k <= j < i ==> !tracks[j].Sendable()
    decreases |tracks| - k
  {
    if k == |tracks| || tracks[k].Sendable() then k else FirstSendable(tracks, k + 1)
  }

  function Polling(s: SenderState, read: Read): (SenderState, Result<Option<FileChunk>, FileError>) {
    var i := FirstSendable(s.tracks, 0);
    if !s.accepted || s.aborted || i == |s.tracks| then (s, Ok(None))
    else
      var t := s.tracks[i];
      match read
      case ReadFailed => (s, Err(Sink))
      case ReadUpTo(limit) =>
        var n := Min(limit, t.Want(s.chunkSize));
        if n == 0 then (s, Err(OffsetOutOfRange(i, t.sent)))
        else
          (s.(tracks := s.tracks[i := t.(sent := t.sent + n)]),
           Ok(Some(FileChunk(s.transferId, i, t.sent, t.source[t.sent..t.sent + n]))))
  }

  function Offer(s: SenderState): FileOffer {
    FileOffer(s.transferId,
              seq(|s.tracks|, i requires 0 <= i < |s.tracks| =>
                FileEntry(s.tracks[i].name, s.tracks[i].Size(), s.tracks[i].sha256)))
  }

  // ---- The machine ------------------------------------------------------------------

  class Sender {
    const transferId: nat
    var tracks: seq<Track>
    var chunkSize: nat
    var accepted: bool
    var aborted: bool

    ghost function View(): SenderState
      reads this
    {
      SenderState(transferId, tracks, chunkSize, accepted, aborted)
    }

    constructor (transferId: nat, tracks: seq<Track>)
      ensures View() == SenderState(transferId, tracks, DEFAULT_CHUNK_SIZE, false, false)
    {
      this.transferId := transferId;
      this.tracks := tracks;
      chunkSize, accepted, aborted := DEFAULT_CHUNK_SIZE, false, false;
    }

    static method New(transferId: nat, files: seq<(string, seq<byte>, Option<Digest>)>)
      returns (r: Result<Sender, FileError>)
      ensures r.Ok? <==> 0 < |files| <= U32_MAX
      ensures r.Ok? ==> fresh(r.value) && |r.value.tracks| == |files| && r.value.transferId == transferId
                        && !r.value.accepted && !r.value.aborted && r.value.chunkSize == DEFAULT_CHUNK_SIZE
      ensures r.Ok? ==> forall i :: 0 <= i < |files| ==>
                r.value.tracks[i] == Track(files[i].0, files[i].1, files[i].2, 0, 0, false)
    {
      if |files| == 0 || |files| > U32_MAX { return Err(Protocol); }
      var tracks := [];
      for i := 0 to |files|
        invariant |tracks| == i
        invariant forall j :: 0 <= j < i ==> tracks[j] == Track(files[j].0, files[j].1, files[j].2, 0, 0, false)
      {
        tracks := tracks + [Track(files[i].0, files[i].1, files[i].2, 0, 0, false)];
      }
      var s := new Sender(transferId, tracks);
      r := Ok(s);
    }

    method WithChunkSize(n: nat) returns (r: Result<(), FileError>)
      modifies this
      ensures r.Ok? <==> 1 <= n <= MAX_CHUNK_SIZE
      ensures View() == if r.Ok? then old(View()).(chunkSize := n) else old(View())
    {
      if n == 0 || n > MAX_CHUNK_SIZE { return Err(Protocol); }
      chunkSize := n;
      r := Ok(());
    }

    /** Validates the whole resume list before touching any track. */
    method OnAccept(accept: FileAccept) returns (r: Result<(), FileError>)
      modifies this
      ensures (View(), r) == Accepting(old(View()), accept)
    {
      if accept.transferId != transferId { return Err(UnknownTransfer(accept.transferId)); }
      if accepted { return Err(Protocol); }
      var resume := accept.resume;
      for pos := 0 to |resume|
        invariant FirstFault(tracks, resume, 0) == FirstFault(tracks, resume, pos)
      {
        if ResumeFault(tracks, resume, pos).Some? {
          return Err(ResumeFault(tracks, resume, pos).value);
        }
      }
      NoFault(tracks, resume, 0);
      ghost var before := tracks;
      for k := 0 to |resume|
        modifies this
        invariant View() == old(View()).(tracks := tracks)
        invariant tracks == ApplyResume(before, resume[..k])
      {
        var p := resume[k];
        assert ResumeFault(before, resume, k).None?;
        assert resume[..k + 1][..k] == resume[..k];
        NotYetResumed(resume[..k], p.fileIndex);
        tracks := tracks[p.fileIndex :=
          tracks[p.fileIndex].(resumed := true, sent := p.offset, acked := p.offset)];
      }
      assert resume[..|resume|] == resume;
      accepted := true;
      r := Ok(());
    }

    method OnAck(ack: FileAck) returns (r: Result<(), FileError>)
      modifies this
      ensures (View(), r) == Acking(old(View()), ack)
    {
      if ack.transferId != transferId { return Err(UnknownTransfer(ack.transferId)); }
      if !accepted { return Err(Protocol); }
      if ack.fileIndex >= |tracks| { return Err(UnknownFileIndex(ack.fileIndex)); }
      var t := tracks[ack.fileIndex];
      if ack.ackedThrough > t.Size() || ack.ackedThrough > t.sent {
        return Err(OffsetOutOfRange(ack.fileIndex, ack.ackedThrough));
      }
      assert t == t.(acked := t.acked) && tracks == tracks[ack.fileIndex := t];
      if ack.ackedThrough > t.acked {
        tracks := tracks[ack.fileIndex := t.(acked := ack.ackedThrough)];
      }
      r := Ok(());
    }

    method OnDone(done: FileDone) returns (r: Result<(), FileError>)
      modifies this
      ensures (View(), r) == Finishing(old(View()), done)
    {
      if done.transferId != transferId { return Err(UnknownTransfer(done.transferId)); }
      if !done.ok { aborted := true; }
      r := Ok(());
    }

    method PollChunk(read: Read) returns (r: Result<Option<FileChunk>, FileError>)
      modifies this
      ensures (View(), r) == Polling(old(View()), read)
    {
      if !accepted || aborted { return Ok(None); }
      for i := 0 to |tracks|
        invariant View() == old(View())
        invariant FirstSendable(tracks, 0) == FirstSendable(tracks, i)
      {
        var t := tracks[i];
        if t.sent >= t.Size() { continue; }
        var inFlight := SatSub(t.sent, t.acked);
        if inFlight >= MAX_IN_FLIGHT_PER_FILE { continue; }
        var windowLeft := MAX_IN_FLIGHT_PER_FILE - inFlight;
        var fileLeft := t.Size() - t.sent;
        var want := Min(Min(chunkSize, windowLeft), fileLeft);
        if read.ReadFailed? { return Err(Sink); }
        var n := Min(read.n, want);
        if n == 0 { return Err(OffsetOutOfRange(i, t.sent)); }
        tracks := tracks[i := t.(sent := t.sent + n)];
        return Ok(Some(FileChunk(transferId, i, t.sent, t.source[t.sent..t.sent + n])));
      }
      r := Ok(None);
    }

    method IsComplete() returns (b: bool)
      ensures b == View().IsComplete()
    {
      if aborted { return false; }
      for i := 0 to |tracks|
        invariant forall j :: 0 <= j < i ==> tracks[j].acked >= tracks[j].Size()
      {
        if tracks[i].acked < tracks[i].Size() { return false; }
      }
      b := true;
    }
  }

  lemma {:induction false} NoFault(tracks: seq<Track>, resume: seq<ResumePoint>, pos: nat)
    requires pos <= |resume|
    requires FirstFault(tracks, resume, pos).None?
    ensures forall k :: pos <= k < |resume| ==> ResumeFault(tracks, resume, k).None?
    decreases |resume| - pos
  {
    if pos < |resume| { NoFault(tracks, resume, pos + 1); }
  }

  lemma {:induction false} FaultFree(tracks: seq<Track>, resume: seq<ResumePoint>, pos: nat)
    requires pos <= |resume|
    requires forall k :: pos <= k < |resume| ==> ResumeFault(tracks, resume, k).None?
    ensures FirstFault(tracks, resume, pos).None?
    decreases |resume| - pos
  {
    if pos < |resume| { FaultFree(tracks, resume, pos + 1); }
  }

  lemma {:induction false} NotYetResumed(resume: seq<ResumePoint>, i: nat)
    requires forall e :: e in resume ==> e.fileIndex != i
    ensures ResumeOf(resume, i).None?
  {
    if resume != [] { NotYetResumed(resume[..|resume| - 1], i); }
  }

  /** An accept that is applied moves exactly the named files to their offsets. */
  lemma {:induction false} ResumeOfEntry(resume: seq<ResumePoint>, k: nat)
    requires k < |resume|
    requires forall a, b :: 0 <= a < b < |resume| ==> resume[a].fileIndex != resume[b].fileIndex
    ensures ResumeOf(resume, resume[k].fileIndex) == Some(resume[k].offset)
  {
    if k < |resume| - 1 {
      ResumeOfEntry(resume[..|resume| - 1], k);
    }
  }
}
