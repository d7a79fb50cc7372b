/**
  Sender and receiver joined by two lossless FIFO channels: the system invariant, progress,
  termination, and agreement on how the transfer ended.
 */
module FileTransfer {
  import opened Common
  import opened FileTypes
  import opened FileSender
  import opened FileReceiver
  import opened FileChannels

  /** `held` is what each sink held before the transfer; `log` is every reply ever emitted;
      `refused` is set as soon as either machine returns an error for a delivered message. */
  datatype Sys = Sys(snd: SenderState, rcv: ReceiverState, data: seq<FileChunk>, replies: seq<Outbound>,
                     log: seq<Outbound>, held: seq<seq<byte>>, refused: bool)
  {
    /** High-water marks as they stand once the accept has been applied. */
    function Sent(i: nat): nat requires i < |snd.tracks| && i < |held| {
      if snd.accepted then snd.tracks[i].sent else |held[i]|
    }
    function Acked(i: nat): nat requires i < |snd.tracks| && i < |held| {
      if snd.accepted then snd.tracks[i].acked else |held[i]|
    }
  }

  datatype Label =
    | Send(read: Read)                                // the sender polls and transmits a chunk
    | Arrive(writeOk: bool, faults: set<nat>)         // the oldest chunk reaches the receiver
    | Return                                          // the oldest reply reaches the sender

  /** An honest source yields at least one byte; a poll that returns nothing is not a step. */
  predicate Enabled(y: Sys, l: Label) {
    match l
    case Send(read) => read.ReadUpTo? && read.n >= 1 && Polling(y.snd, read).1 != Ok(None)
    case Arrive(_, _) => y.data != []
    case Return => y.replies != []
  }

  function Step(y: Sys, l: Label, sha: Sha): Sys
    requires Enabled(y, l)
  {
    match l
    case Send(read) =>
      var (s, r) := Polling(y.snd, read);
      if r.Err? then y.(refused := true)
      else y.(snd := s, data := y.data + (if r.value.Some? then [r.value.value] else []))
    case Arrive(writeOk, faults) =>
      var (r, out) := Receiving(y.rcv, y.data[0], sha, writeOk, faults);
      if out.Err? then y.(data := y.data[1..], refused := true)
      else y.(rcv := r, data := y.data[1..], replies := y.replies + out.value, log := y.log + out.value)
    case Return =>
      var (s, r) := Delivering(y.snd, y.replies[0]);
      y.(snd := s, replies := y.replies[1..], refused := y.refused || r.Err?)
  }

  /** The sender has no handler for a reject: the driver ends the transfer there. */
  function Delivering(s: SenderState, m: Outbound): (SenderState, Result<(), FileError>) {
    match m
    case Accept(a) => Accepting(s, a)
    case Ack(a) => Acking(s, a)
    case Done(d) => Finishing(s, d)
    case Reject(_) => (s, Ok(()))
  }

  /** The state right after the receiver accepted the sender's offer. */
  ghost predicate Init(y: Sys, config: Config, sinks: Sinks, sha: Sha, faults: set<nat>) {
    && y.snd.Valid() && !y.snd.accepted && !y.snd.aborted
    && (forall i :: 0 <= i < |y.snd.tracks| ==> y.snd.tracks[i].sent == y.snd.tracks[i].acked == 0)
    && |sinks| == |y.snd.tracks|
    && Offered(Offer(y.snd), config, sinks, sha, faults) == Ok((y.rcv, y.replies))
    && y.replies != [] && y.replies[0].Accept?
    && y.data == [] && y.log == y.replies && !y.refused
    && |y.held| == |sinks|
    && (forall i :: 0 <= i < |sinks| ==> sinks[i].Some? ==> y.held[i] == sinks[i].value)
  }

  // ---- The invariant --------------------------------------------------------------

  predicate Shape(y: Sys) {
    && y.snd.Valid() && !y.refused
    && |y.rcv.slots| == |y.held| == |y.snd.tracks|
    && y.rcv.transferId == y.snd.transferId
    && forall i :: 0 <= i < |y.held| ==> y.rcv.slots[i].size == y.snd.tracks[i].Size()
  }

  /** The protocol invariant of file `i`. */
  predicate FileInv(y: Sys, i: nat)
    requires Shape(y) && i < |y.held|
  {
    var t, s := y.snd.tracks[i], y.rcv.slots[i];
    && |y.held[i]| <= s.acked
    && y.Acked(i) <= s.acked <= y.Sent(i) <= t.Size()
    && y.Sent(i) - y.Acked(i) <= MAX_IN_FLIGHT_PER_FILE
    && s.sink == y.held[i] + t.source[|y.held[i]|..s.acked]
    && AckFold(y.replies, i, y.Acked(i)) == s.acked
    && (!y.rcv.aborted ==> Chain(y.data, i, t.source, s.acked, y.Sent(i)))
  }

  /** A slot is complete exactly when it has all its bytes, and then its digest was the expected one. */
  predicate SlotInv(y: Sys, i: nat, sha: Sha)
    requires i < |y.rcv.slots|
  {
    var s := y.rcv.slots[i];
    && (s.complete ==> s.acked == s.size && (s.expected.Some? ==> sha(s.sink) == s.expected.value))
    && (!y.rcv.aborted && s.acked == s.size ==> s.complete)
  }

  predicate MessageInv(y: Sys) {
    && (forall c :: c in y.data ==> c.transferId == y.snd.transferId && c.fileIndex < |y.held|)
    && (forall k :: 0 <= k < |y.replies| ==> ReplyOk(y, y.replies[k], k))
  }

  predicate ReplyOk(y: Sys, m: Outbound, k: nat) {
    match m
    case Accept(a) => !y.snd.accepted && k == 0 && a.transferId == y.snd.transferId
                      && |y.held| == |y.snd.tracks| && ResumeIs(a.resume, y.held)
    case Ack(a) => a.transferId == y.snd.transferId && a.fileIndex < |y.held|
    case Done(d) => d.transferId == y.snd.transferId
    case Reject(_) => false
  }

  /** The accept names exactly the files that hold bytes, each at the length it holds. */
  predicate ResumeIs(resume: seq<ResumePoint>, held: seq<seq<byte>>) {
    && (forall k :: 0 <= k < |resume| ==>
          resume[k].fileIndex < |held| && resume[k].offset == |held[resume[k].fileIndex]|)
    && (forall a, b :: 0 <= a < b < |resume| ==> resume[a].fileIndex != resume[b].fileIndex)
    && (forall i :: 0 <= i < |held| ==>
          ResumeOf(resume, i) == if |held[i]| == 0 then None else Some(|held[i]|))
  }

  predicate BeforeAccept(y: Sys) {
    !y.snd.accepted ==>
      && y.data == [] && !y.snd.aborted
      && y.replies != [] && y.replies[0].Accept?
      && forall i :: 0 <= i < |y.snd.tracks| ==> y.snd.tracks[i].sent == y.snd.tracks[i].acked == 0
  }

  predicate IsFailure(m: Outbound) { m.Done? && !m.done.ok }

  predicate EndInv(y: Sys) {
    && (y.rcv.aborted ==> y.rcv.doneEmitted)
    && DoneCount(y.log) == (if y.rcv.doneEmitted then 1 else 0)
    && (y.rcv.aborted <==> y.snd.aborted || exists m :: m in y.replies && IsFailure(m))
    && (y.rcv.aborted <==> exists m :: m in y.log && IsFailure(m))
    && (!y.rcv.aborted ==> (y.rcv.doneEmitted <==> forall i :: 0 <= i < |y.rcv.slots| ==> y.rcv.slots[i].complete))
  }

  predicate Inv(y: Sys, sha: Sha) {
    && Shape(y)
    && (forall i :: 0 <= i < |y.held| ==> FileInv(y, i))
    && (forall i :: 0 <= i < |y.held| ==> SlotInv(y, i, sha))
    && MessageInv(y)
    && BeforeAccept(y)
    && EndInv(y)
  }

  // ---- Establishing it --------------------------------------------------------------

  /** Distinct files below `n`, each at the length it holds. */
  predicate Listed(resume: seq<ResumePoint>, sinks: Sinks, n: nat) {
    && n <= |sinks|
    && (forall p :: p in resume ==>
          p.fileIndex < n && sinks[p.fileIndex].Some? && p.offset == |sinks[p.fileIndex].value|)
    && (forall a, b :: 0 <= a < b < |resume| ==> resume[a].fileIndex != resume[b].fileIndex)
  }

  lemma {:induction false} ResumePointsListed(sinks: Sinks, n: nat)
    requires n <= |sinks|
    ensures Listed(ResumePoints(sinks, n), sinks, n)
  {
    if n > 0 {
      ResumePointsListed(sinks, n - 1);
      var rest, all := ResumePoints(sinks, n - 1), ResumePoints(sinks, n);
      if all != rest {
        assert all == rest + [ResumePoint(n - 1, |sinks[n - 1].value|)];
        forall a, b | 0 <= a < b < |all| ensures all[a].fileIndex != all[b].fileIndex {
          assert all[a] in rest;
        }
      }
    }
  }

  lemma {:induction false} ResumePointsLookup(sinks: Sinks, n: nat, i: nat)
    requires i < n <= |sinks| && forall j :: 0 <= j < n ==> sinks[j].Some?
    ensures ResumeOf(ResumePoints(sinks, n), i) == (if |sinks[i].value| == 0 then None else Some(|sinks[i].value|))
  {
    var rest, all := ResumePoints(sinks, n - 1), ResumePoints(sinks, n);
    assert all != rest ==> all[..|all| - 1] == rest;
    if i == n - 1 {
      ResumePointsListed(sinks, n - 1);
      NotYetResumed(rest, i);
    } else {
      ResumePointsLookup(sinks, n - 1, i);
    }
  }

  lemma {:induction false} ResumePointsAre(sinks: Sinks, held: seq<seq<byte>>)
    requires |held| == |sinks| && forall i :: 0 <= i < |sinks| ==> sinks[i] == Some(held[i])
    ensures ResumeIs(ResumePoints(sinks, |sinks|), held)
  {
    var resume := ResumePoints(sinks, |sinks|);
    ResumePointsListed(sinks, |sinks|);
    forall k | 0 <= k < |resume|
      ensures resume[k].fileIndex < |held| && resume[k].offset == |held[resume[k].fileIndex]|
    {
      assert resume[k] in resume;
    }
    forall i | 0 <= i < |held| { ResumePointsLookup(sinks, |sinks|, i); }
  }

  /** Finalizing fresh or updated slots restores the slot invariant and touches nothing else. */
  lemma {:induction false} FinalizingKeeps(r: ReceiverState, sha: Sha, faults: set<nat>, i: nat)
    requires i < |r.slots| && !r.aborted
    requires r.slots[i].acked <= r.slots[i].size
    requires r.slots[i].complete ==>
               r.slots[i].acked == r.slots[i].size
               && (r.slots[i].expected.Some? ==> sha(r.slots[i].sink) == r.slots[i].expected.value)
    ensures var r' := Finalizing(r, sha, faults).0;
            && |r'.slots| == |r.slots| && r'.transferId == r.transferId
            && r'.slots[i] == r.slots[i].(complete := r'.slots[i].complete)
            && (r'.slots[i].complete ==>
                  r'.slots[i].acked == r'.slots[i].size
                  && (r'.slots[i].expected.Some? ==> sha(r'.slots[i].sink) == r'.slots[i].expected.value))
            && (!r'.aborted && r'.slots[i].acked == r'.slots[i].size ==> r'.slots[i].complete)
  {
  }

  /** What finalizing reports: a failure exactly on abort, a success exactly when the last file completes. */
  lemma {:induction false} FinalizingReports(r: ReceiverState, sha: Sha, faults: set<nat>)
    requires !r.aborted
    requires r.doneEmitted ==> forall i :: 0 <= i < |r.slots| ==> r.slots[i].complete
    ensures var (r', done) := Finalizing(r, sha, faults);
            && (r'.aborted <==> done == Some(FileDone(r.transferId, false)))
            && (done.Some? && done.value.ok ==> done.value.transferId == r.transferId && !r.doneEmitted)
            && (r'.doneEmitted <==> r.doneEmitted || done.Some?)
            && (r.doneEmitted ==> done.None?)
            && (!r'.aborted ==> (r'.doneEmitted <==> forall i :: 0 <= i < |r'.slots| ==> r'.slots[i].complete))
  {
    var (r', done) := Finalizing(r, sha, faults);
    if r.doneEmitted {
      assert FirstBad(r.slots, 0, sha, faults) == |r.slots|;
      assert forall i :: 0 <= i < |r.slots| ==> r'.slots[i] == r.slots[i];
    }
  }

  function StartOf(y: Sys, config: Config, sinks: Sinks): ReceiverState
    requires |sinks| == |y.snd.tracks| && forall i :: 0 <= i < |sinks| ==> sinks[i].Some?
  {
    ReceiverState(y.snd.transferId, FreshSlots(Offer(y.snd), config, sinks), false, false)
  }

  /** An offer that was accepted opened every sink, and none held more than its file. */
  lemma {:induction false} AcceptedOffer(y: Sys, config: Config, sinks: Sinks, sha: Sha, faults: set<nat>)
    requires Init(y, config, sinks, sha, faults)
    ensures forall i :: 0 <= i < |sinks| ==> sinks[i] == Some(y.held[i]) && |y.held[i]| <= y.snd.tracks[i].Size()
    ensures var (r, done) := Finalizing(StartOf(y, config, sinks), sha, faults);
            && y.rcv == r
            && y.replies == [Accept(FileAccept(y.snd.transferId, ResumePoints(sinks, |sinks|)))] + Reply(done)
  {
    var offer := Offer(y.snd);
    var u := FirstUnusable(offer.files, sinks, 0);
    assert u == |offer.files|;
    forall i | 0 <= i < |sinks| ensures sinks[i] == Some(y.held[i]) && |y.held[i]| <= y.snd.tracks[i].Size() {
      assert offer.files[i].size == y.snd.tracks[i].Size();
    }
  }

  lemma {:induction false} InitSlot(y: Sys, config: Config, sinks: Sinks, sha: Sha, faults: set<nat>, i: nat)
    requires |sinks| == |y.snd.tracks| == |y.held| && i < |sinks|
    requires forall j :: 0 <= j < |sinks| ==> sinks[j] == Some(y.held[j]) && |y.held[j]| <= y.snd.tracks[j].Size()
    requires y.rcv == Finalizing(StartOf(y, config, sinks), sha, faults).0
    ensures |y.rcv.slots| == |sinks| && y.rcv.transferId == y.snd.transferId
    ensures y.rcv.slots[i].size == y.snd.tracks[i].Size() && y.rcv.slots[i].sink == y.held[i]
    ensures y.rcv.slots[i].acked == |y.held[i]| && SlotInv(y, i, sha)
  {
    var r0 := StartOf(y, config, sinks);
    assert r0.slots[i] == FreshSlot(i, Offer(y.snd).files[i], config, sinks[i].value);
    FinalizingKeeps(r0, sha, faults, i);
  }

  lemma {:induction false} InitFile(y: Sys, i: nat)
    requires Shape(y) && i < |y.held| && !y.snd.accepted && y.data == []
    requires forall m :: m in y.replies ==> !m.Ack?
    requires y.rcv.slots[i].sink == y.held[i] && y.rcv.slots[i].acked == |y.held[i]| <= y.snd.tracks[i].Size()
    ensures FileInv(y, i)
  {
    AckFoldQuiet(y.replies, i, |y.held[i]|);
  }

  lemma {:induction false} InitMessages(y: Sys, resume: seq<ResumePoint>, done: Option<FileDone>)
    requires !y.snd.accepted && y.data == [] && |y.held| == |y.snd.tracks| && ResumeIs(resume, y.held)
    requires y.replies == [Accept(FileAccept(y.snd.transferId, resume))] + Reply(done)
    requires done.Some? ==> done.value.transferId == y.snd.transferId
    ensures MessageInv(y) && forall m :: m in y.replies ==> !m.Ack?
  {
  }

  lemma {:induction false} InitInv(y: Sys, config: Config, sinks: Sinks, sha: Sha, faults: set<nat>)
    requires Init(y, config, sinks, sha, faults)
    ensures Inv(y, sha)
  {
    AcceptedOffer(y, config, sinks, sha, faults);
    InitFrom(y, config, sinks, sha, faults);
  }

  lemma {:induction false} InitFrom(y: Sys, config: Config, sinks: Sinks, sha: Sha, faults: set<nat>)
    requires y.snd.Valid() && BeforeAccept(y) && !y.snd.accepted && y.log == y.replies && !y.refused
    requires |sinks| == |y.snd.tracks| == |y.held|
    requires forall j :: 0 <= j < |sinks| ==> sinks[j] == Some(y.held[j]) && |y.held[j]| <= y.snd.tracks[j].Size()
    requires var (r, done) := Finalizing(StartOf(y, config, sinks), sha, faults);
             && y.rcv == r
             && y.replies == [Accept(FileAccept(y.snd.transferId, ResumePoints(sinks, |sinks|)))] + Reply(done)
    ensures Inv(y, sha)
  {
    ResumePointsAre(sinks, y.held);
    var r0 := StartOf(y, config, sinks);
    var done := Finalizing(r0, sha, faults).1;
    FinalizingReports(r0, sha, faults);
    InitMessages(y, ResumePoints(sinks, |sinks|), done);
    forall i | 0 <= i < |sinks|
      ensures |y.rcv.slots| == |sinks| && y.rcv.slots[i].size == y.snd.tracks[i].Size()
    {
      InitSlot(y, config, sinks, sha, faults, i);
    }
    InitSlot(y, config, sinks, sha, faults, 0);
    assert Shape(y);
    forall i | 0 <= i < |sinks| ensures FileInv(y, i) && SlotInv(y, i, sha) {
      InitSlot(y, config, sinks, sha, faults, i);
      InitFile(y, i);
    }
    assert y.replies[1..] == Reply(done);
    InitEnd(y, r0, sha, faults);
  }

  lemma {:induction false} InitEnd(y: Sys, r0: ReceiverState, sha: Sha, faults: set<nat>)
    requires !r0.aborted && !r0.doneEmitted && !y.snd.aborted
    requires var (r, done) := Finalizing(r0, sha, faults);
             y.rcv == r && |y.replies| >= 1 && y.replies[0].Accept? && y.replies[1..] == Reply(done)
    requires y.log == y.replies
    ensures EndInv(y)
  {
    FinalizingReports(r0, sha, faults);
    var (r, done) := Finalizing(r0, sha, faults);
    if done.Some? {
      assert y.replies[1] == Done(done.value) && y.replies == [y.replies[0], Done(done.value)];
      assert Done(done.value) in y.replies;
      assert DoneCount(Reply(done)) == 1 by { assert Reply(done)[1..] == []; }
    } else {
      assert y.replies == [y.replies[0]];
    }
  }

  // ---- Keeping it -------------------------------------------------------------------

  /** The chunk a poll yields: the next bytes of a file whose window it does not overrun. */
  lemma {:induction false} SendStep(y: Sys, read: Read, sha: Sha) returns (k: nat, n: nat)
    requires Shape(y) && Enabled(y, Send(read))
    ensures y.snd.accepted && k < |y.snd.tracks| && 1 <= n <= MAX_CHUNK_SIZE
    ensures var t := y.snd.tracks[k];
            && t.sent + n <= t.Size() && t.InFlight() + n <= MAX_IN_FLIGHT_PER_FILE
            && Step(y, Send(read), sha) ==
                 y.(snd := y.snd.(tracks := y.snd.tracks[k := t.(sent := t.sent + n)]),
                    data := y.data + [FileChunk(y.snd.transferId, k, t.sent, t.source[t.sent..t.sent + n])])
  {
    k := FirstSendable(y.snd.tracks, 0);
    n := Min(read.n, y.snd.tracks[k].Want(y.snd.chunkSize));
  }

  lemma {:induction false} SendFile(y: Sys, y': Sys, k: nat, n: nat, i: nat)
    requires Shape(y) && Shape(y') && i < |y.held| && FileInv(y, i) && y.snd.accepted && k < |y.held|
    requires 1 <= n <= MAX_CHUNK_SIZE && y.snd.tracks[k].sent + n <= y.snd.tracks[k].Size()
    requires y.snd.tracks[k].InFlight() + n <= MAX_IN_FLIGHT_PER_FILE
    requires var t := y.snd.tracks[k];
             y' == y.(snd := y.snd.(tracks := y.snd.tracks[k := t.(sent := t.sent + n)]),
                      data := y.data + [FileChunk(y.snd.transferId, k, t.sent, t.source[t.sent..t.sent + n])])
    ensures FileInv(y', i)
  {
    var t := y.snd.tracks[k];
    var c := FileChunk(y.snd.transferId, k, t.sent, t.source[t.sent..t.sent + n]);
    if !y.rcv.aborted {
      if i == k {
        ChainAppend(y.data, c, i, t.source, y.rcv.slots[i].acked, t.sent);
      } else {
        ChainAppendOther(y.data, c, i, y.snd.tracks[i].source, y.rcv.slots[i].acked, y.Sent(i));
      }
    }
  }

  lemma {:induction false} SendKeeps(y: Sys, read: Read, sha: Sha)
    requires Inv(y, sha) && Enabled(y, Send(read))
    ensures Inv(Step(y, Send(read), sha), sha)
  {
    var k, n := SendStep(y, read, sha);
    var y' := Step(y, Send(read), sha);
    assert Shape(y');
    forall i | 0 <= i < |y.held| ensures FileInv(y', i) && SlotInv(y', i, sha) {
      assert FileInv(y, i) && SlotInv(y, i, sha);
      SendFile(y, y', k, n, i);
    }
    forall j | 0 <= j < |y'.replies| ensures ReplyOk(y', y'.replies[j], j) { assert ReplyOk(y, y.replies[j], j); }
  }

  /** The oldest chunk is always the next bytes of an unfinished file. */
  lemma {:induction false} ArrivalIsNext(y: Sys, sha: Sha)
    requires Inv(y, sha) && y.data != [] && !y.rcv.aborted
    ensures var c := y.data[0];
            && c.transferId == y.rcv.transferId && c.fileIndex < |y.rcv.slots| && 1 <= |c.data| <= MAX_CHUNK_SIZE
            && c.offset == y.rcv.slots[c.fileIndex].acked
            && c.offset + |c.data| <= y.Sent(c.fileIndex) <= y.snd.tracks[c.fileIndex].Size()
            && c.data == y.snd.tracks[c.fileIndex].source[c.offset..c.offset + |c.data|]
            && !y.rcv.slots[c.fileIndex].complete
  {
    var c := y.data[0];
    assert c in y.data;
    assert FileInv(y, c.fileIndex) && SlotInv(y, c.fileIndex, sha);
    var src := y.snd.tracks[c.fileIndex].source;
    ChainBytes(y.data[1..], c.fileIndex, src, c.offset + |c.data|, y.Sent(c.fileIndex));
  }

  /** Replies the receiver may append: acks that leave the folded ack at the new high-water mark. */
  lemma {:induction false} AckFoldAppendAll(q: seq<Outbound>, ack: FileAck, done: Option<FileDone>, i: nat, base: nat)
    ensures AckFold(q + ([Ack(ack)] + Reply(done)), i, base) ==
            (if ack.fileIndex == i then Max(AckFold(q, i, base), ack.ackedThrough) else AckFold(q, i, base))
  {
    AckFoldAppend(q, Ack(ack), i, base);
    if done.Some? {
      AckFoldAppend(q + [Ack(ack)], Done(done.value), i, base);
      assert q + ([Ack(ack)] + Reply(done)) == (q + [Ack(ack)]) + [Done(done.value)];
    } else {
      assert q + ([Ack(ack)] + Reply(done)) == q + [Ack(ack)];
    }
  }

  lemma {:induction false} IgnoredKeeps(y: Sys, writeOk: bool, faults: set<nat>, sha: Sha)
    requires Inv(y, sha) && y.data != [] && y.rcv.aborted
    ensures Inv(Step(y, Arrive(writeOk, faults), sha), sha)
  {
    var y' := Step(y, Arrive(writeOk, faults), sha);
    assert y.data[0] in y.data;
    assert y'.replies == y.replies && y'.log == y.log;
    forall i | 0 <= i < |y.held| ensures FileInv(y', i) && SlotInv(y', i, sha) {
      assert FileInv(y, i) && SlotInv(y, i, sha);
    }
  }

  lemma {:induction false} FailedWriteKeeps(y: Sys, faults: set<nat>, sha: Sha)
    requires Inv(y, sha) && y.data != [] && !y.rcv.aborted
    ensures Inv(Step(y, Arrive(false, faults), sha), sha)
  {
    var y' := Step(y, Arrive(false, faults), sha);
    ArrivalIsNext(y, sha);
    var d := Done(FileDone(y.rcv.transferId, false));
    assert y'.replies == y.replies + [d] && y'.log == y.log + [d];
    forall i | 0 <= i < |y.held| ensures FileInv(y', i) && SlotInv(y', i, sha) {
      assert FileInv(y, i) && SlotInv(y, i, sha);
      AckFoldAppend(y.replies, d, i, y.Acked(i));
    }
    SomeSlotOpen(y, sha);
    assert d in [d] && IsFailure(d);
    EndAfter(y, y', [d]);
  }

  lemma {:induction false} SomeSlotOpen(y: Sys, sha: Sha)
    requires Inv(y, sha) && y.data != [] && !y.rcv.aborted
    ensures !y.rcv.doneEmitted
  {
    ArrivalIsNext(y, sha);
    assert !y.rcv.slots[y.data[0].fileIndex].complete;
  }

  /** The end-of-transfer invariant after a live receiver appended `out`. */
  lemma {:induction false} EndAfter(y: Sys, y': Sys, out: seq<Outbound>)
    requires EndInv(y) && !y.rcv.aborted && !y.rcv.doneEmitted
    requires y'.replies == y.replies + out && y'.log == y.log + out && y'.snd == y.snd
    requires DoneCount(out) == (if y'.rcv.doneEmitted then 1 else 0)
    requires y'.rcv.aborted ==> y'.rcv.doneEmitted
    requires y'.rcv.aborted <==> exists m :: m in out && IsFailure(m)
    requires !y'.rcv.aborted ==>
               (y'.rcv.doneEmitted <==> forall i :: 0 <= i < |y'.rcv.slots| ==> y'.rcv.slots[i].complete)
    ensures EndInv(y')
  {
    DoneCountAppend(y.log, out);
    if y'.rcv.aborted {
      var m :| m in out && IsFailure(m);
      assert m in y'.replies && m in y'.log;
    }
  }

  /** The receiver with the oldest chunk written, before finalizing. */
  function WithChunk(r: ReceiverState, c: FileChunk): ReceiverState
    requires c.fileIndex < |r.slots|
  {
    var slot := r.slots[c.fileIndex];
    r.(slots := r.slots[c.fileIndex := slot.(acked := c.offset + |c.data|, sink := slot.sink + c.data)])
  }

  lemma {:induction false} StoredStep(y: Sys, faults: set<nat>, sha: Sha)
    requires Inv(y, sha) && y.data != [] && !y.rcv.aborted
    ensures y.data[0].fileIndex < |y.rcv.slots|
    ensures var c := y.data[0];
            var (r, done) := Finalizing(WithChunk(y.rcv, c), sha, faults);
            var out := [Ack(FileAck(y.rcv.transferId, c.fileIndex, c.offset + |c.data|))] + Reply(done);
            Step(y, Arrive(true, faults), sha) ==
              y.(rcv := r, data := y.data[1..], replies := y.replies + out, log := y.log + out)
  {
    ArrivalIsNext(y, sha);
  }

  lemma {:induction false} StoredSlots(y: Sys, faults: set<nat>, sha: Sha, i: nat)
    requires Inv(y, sha) && y.data != [] && !y.rcv.aborted && i < |y.held|
    ensures var c, y' := y.data[0], Step(y, Arrive(true, faults), sha);
            && c.fileIndex < |y.rcv.slots| && |y'.rcv.slots| == |y.rcv.slots|
            && y'.rcv.slots[i] == WithChunk(y.rcv, c).slots[i].(complete := y'.rcv.slots[i].complete)
            && SlotInv(y', i, sha)
  {
    ArrivalIsNext(y, sha);
    StoredStep(y, faults, sha);
    assert FileInv(y, i) && SlotInv(y, i, sha);
    FinalizingKeeps(WithChunk(y.rcv, y.data[0]), sha, faults, i);
  }

  lemma {:induction false} StoredEnd(y: Sys, faults: set<nat>, sha: Sha)
    requires Inv(y, sha) && y.data != [] && !y.rcv.aborted
    ensures EndInv(Step(y, Arrive(true, faults), sha))
  {
    var y' := Step(y, Arrive(true, faults), sha);
    StoredStep(y, faults, sha);
    SomeSlotOpen(y, sha);
    var c := y.data[0];
    var r1 := WithChunk(y.rcv, c);
    var done := Finalizing(r1, sha, faults).1;
    var out := [Ack(FileAck(y.rcv.transferId, c.fileIndex, c.offset + |c.data|))] + Reply(done);
    FinalizingReports(r1, sha, faults);
    if done.Some? {
      assert out[1] == Done(done.value) && Done(done.value) in out;
      assert out[1..] == Reply(done) && Reply(done)[1..] == [];
      assert DoneCount(Reply(done)) == 1;
    } else {
      assert DoneCount(out) == 0 by { assert out[1..] == []; }
    }
    assert y'.rcv.aborted ==> IsFailure(Done(done.value));
    EndAfter(y, y', out);
  }

  lemma {:induction false} StoredShape(y: Sys, faults: set<nat>, sha: Sha)
    requires Inv(y, sha) && y.data != [] && !y.rcv.aborted
    ensures Shape(Step(y, Arrive(true, faults), sha))
  {
    var y' := Step(y, Arrive(true, faults), sha);
    StoredStep(y, faults, sha);
    StoredSlots(y, faults, sha, 0);
    forall i | 0 <= i < |y.held| ensures y'.rcv.slots[i].size == y.snd.tracks[i].Size() {
      StoredSlots(y, faults, sha, i);
    }
  }

  lemma {:induction false} StoredFiles(y: Sys, faults: set<nat>, sha: Sha, i: nat)
    requires Inv(y, sha) && y.data != [] && !y.rcv.aborted && i < |y.held|
    ensures var y' := Step(y, Arrive(true, faults), sha);
            Shape(y') && FileInv(y', i) && SlotInv(y', i, sha)
  {
    StoredShape(y, faults, sha);
    StoredStep(y, faults, sha);
    ArrivalIsNext(y, sha);
    StoredSlots(y, faults, sha, i);
    assert FileInv(y, i);
    var c := y.data[0];
    StoredFile(y, Step(y, Arrive(true, faults), sha), FileAck(y.rcv.transferId, c.fileIndex, c.offset + |c.data|),
               Finalizing(WithChunk(y.rcv, c), sha, faults).1, i);
  }

  lemma {:induction false} StoredKeeps(y: Sys, faults: set<nat>, sha: Sha)
    requires Inv(y, sha) && y.data != [] && !y.rcv.aborted
    ensures Inv(Step(y, Arrive(true, faults), sha), sha)
  {
    var y' := Step(y, Arrive(true, faults), sha);
    StoredStep(y, faults, sha);
    ArrivalIsNext(y, sha);
    StoredShape(y, faults, sha);
    forall i | 0 <= i < |y.held| ensures FileInv(y', i) && SlotInv(y', i, sha) {
      StoredFiles(y, faults, sha, i);
    }
    var c := y.data[0];
    StoredMessages(y, y', FileAck(y.rcv.transferId, c.fileIndex, c.offset + |c.data|),
                   Finalizing(WithChunk(y.rcv, c), sha, faults).1);
    StoredEnd(y, faults, sha);
  }

  lemma {:induction false} StoredMessages(y: Sys, y': Sys, ack: FileAck, done: Option<FileDone>)
    requires Shape(y) && MessageInv(y) && BeforeAccept(y) && y.data != []
    requires y'.snd == y.snd && y'.held == y.held && y'.data == y.data[1..]
    requires y'.replies == y.replies + ([Ack(ack)] + Reply(done))
    requires ack.transferId == y.snd.transferId && ack.fileIndex < |y.held|
    requires done.Some? ==> done.value.transferId == y.snd.transferId
    ensures MessageInv(y') && BeforeAccept(y')
  {
    forall k | 0 <= k < |y'.replies| ensures ReplyOk(y', y'.replies[k], k) {
      if k < |y.replies| { assert ReplyOk(y, y.replies[k], k); }
    }
  }

  lemma {:induction false} StoredFile(y: Sys, y': Sys, ack: FileAck, done: Option<FileDone>, i: nat)
    requires Shape(y) && Shape(y') && i < |y.held| && FileInv(y, i)
    requires y.data != [] && !y.rcv.aborted && y'.data == y.data[1..]
    requires y'.snd == y.snd && y'.held == y.held && y'.replies == y.replies + ([Ack(ack)] + Reply(done))
    requires var c := y.data[0]; ack.fileIndex == c.fileIndex && ack.ackedThrough == c.offset + |c.data|
    requires var c, s, s' := y.data[0], y.rcv.slots[i], y'.rcv.slots[i];
             if i == c.fileIndex then s'.acked == s.acked + |c.data| && s'.sink == s.sink + c.data
             else s'.acked == s.acked && s'.sink == s.sink
    ensures FileInv(y', i)
  {
    var c, src := y.data[0], y.snd.tracks[i].source;
    AckFoldAppendAll(y.replies, ack, done, i, y.Acked(i));
    if i == c.fileIndex {
      var acked, end := y.rcv.slots[i].acked, y.rcv.slots[i].acked + |c.data|;
      ChainBytes(y.data[1..], i, src, end, y.Sent(i));
      JoinSlices(y.held[i], src, |y.held[i]|, acked, end);
    }
  }

  lemma {:induction false} JoinSlices(pre: seq<byte>, src: seq<byte>, a: nat, b: nat, c: nat)
    requires a <= b <= c <= |src|
    ensures pre + src[a..b] + src[b..c] == pre + src[a..c]
  {
  }

  lemma {:induction false} AckReturns(y: Sys, sha: Sha)
    requires Inv(y, sha) && y.replies != [] && y.replies[0].Ack?
    ensures Inv(Step(y, Return, sha), sha)
  {
    var y' := Step(y, Return, sha);
    assert ReplyOk(y, y.replies[0], 0);
    var a := y.replies[0].ack;
    assert FileInv(y, a.fileIndex);
    AckFoldBound(y.replies, a.fileIndex, y.Acked(a.fileIndex));
    assert y.snd.accepted;
    forall i | 0 <= i < |y.held| ensures FileInv(y', i) && SlotInv(y', i, sha) {
      assert FileInv(y, i) && SlotInv(y, i, sha);
      AckFoldBound(y'.replies, i, y'.Acked(i));
    }
    PoppedReplies(y, y');
    assert !IsFailure(y.replies[0]);
  }

  /** Replies behind the head stay well formed once the head is gone. */
  lemma {:induction false} PoppedReplies(y: Sys, y': Sys)
    requires MessageInv(y) && y.replies != []
    requires y'.replies == y.replies[1..] && y'.data == y.data && y'.held == y.held
    requires y'.snd.transferId == y.snd.transferId && |y'.snd.tracks| == |y.snd.tracks|
    ensures MessageInv(y')
    ensures forall m :: m in y.replies <==> m == y.replies[0] || m in y'.replies
  {
    forall k | 0 <= k < |y'.replies| ensures ReplyOk(y', y'.replies[k], k) {
      assert ReplyOk(y, y.replies[k + 1], k + 1);
    }
    assert y.replies == [y.replies[0]] + y'.replies;
  }

  lemma {:induction false} DoneReturns(y: Sys, sha: Sha)
    requires Inv(y, sha) && y.replies != [] && y.replies[0].Done?
    ensures Inv(Step(y, Return, sha), sha)
  {
    var y' := Step(y, Return, sha);
    assert ReplyOk(y, y.replies[0], 0);
    forall i | 0 <= i < |y.held| ensures FileInv(y', i) && SlotInv(y', i, sha) {
      assert FileInv(y, i) && SlotInv(y, i, sha);
    }
    PoppedReplies(y, y');
    if y.replies[0].done.ok {
      assert !IsFailure(y.replies[0]);
    } else {
      assert IsFailure(y.replies[0]);
    }
  }

  /** Delivering the accept moves every file to the bytes held, and changes nothing else. */
  lemma {:induction false} AcceptStep(y: Sys, sha: Sha)
    requires Inv(y, sha) && y.replies != [] && y.replies[0].Accept?
    ensures !y.snd.accepted
    ensures var s := y.snd.(tracks := ApplyResume(y.snd.tracks, y.replies[0].accept.resume), accepted := true);
            && Step(y, Return, sha) == y.(snd := s, replies := y.replies[1..])
            && forall i :: 0 <= i < |y.held| ==>
                 s.tracks[i].sent == s.tracks[i].acked == |y.held[i]| && s.tracks[i].source == y.snd.tracks[i].source
  {
    assert ReplyOk(y, y.replies[0], 0);
    var resume := y.replies[0].accept.resume;
    forall i | 0 <= i < |y.held| ensures |y.held[i]| <= y.snd.tracks[i].Size() { assert FileInv(y, i); }
    AcceptApplies(y, resume);
    FaultFree(y.snd.tracks, resume, 0);
  }

  lemma {:induction false} AcceptReturns(y: Sys, sha: Sha)
    requires Inv(y, sha) && y.replies != [] && y.replies[0].Accept?
    ensures Inv(Step(y, Return, sha), sha)
  {
    var y' := Step(y, Return, sha);
    AcceptStep(y, sha);
    assert Shape(y');
    forall i | 0 <= i < |y.held| ensures FileInv(y', i) && SlotInv(y', i, sha) {
      assert FileInv(y, i) && SlotInv(y, i, sha);
    }
    PoppedReplies(y, y');
    assert !IsFailure(y.replies[0]);
  }

  lemma {:induction false} AcceptApplies(y: Sys, resume: seq<ResumePoint>)
    requires |y.held| == |y.snd.tracks| && ResumeIs(resume, y.held)
    requires forall i :: 0 <= i < |y.held| ==> |y.held[i]| <= y.snd.tracks[i].Size()
    ensures forall k :: 0 <= k < |resume| ==> ResumeFault(y.snd.tracks, resume, k).None?
  {
  }

  /** Every step keeps the system invariant. */
  lemma {:induction false} StepKeeps(y: Sys, l: Label, sha: Sha)
    requires Inv(y, sha) && Enabled(y, l)
    ensures Inv(Step(y, l, sha), sha)
  {
    match l {
      case Send(read) => SendKeeps(y, read, sha);
      case Arrive(writeOk, faults) =>
        if y.rcv.aborted { IgnoredKeeps(y, writeOk, faults, sha); }
        else if writeOk { StoredKeeps(y, faults, sha); }
        else { FailedWriteKeeps(y, faults, sha); }
      case Return =>
        assert ReplyOk(y, y.replies[0], 0);
        match y.replies[0] {
          case Accept(_) => AcceptReturns(y, sha);
          case Ack(_) => AckReturns(y, sha);
          case Done(_) => DoneReturns(y, sha);
        }
    }
  }
}
