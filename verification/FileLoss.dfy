/**
  The data channel with loss. Acks never rewind `sent`, so a chunk that is lost is never sent again:
  a transfer completes exactly when nothing was lost and nothing aborted it.
 */
module FileLoss {
  import opened Common
  import opened FileTypes
  import opened FileSender
  import opened FileReceiver
  import opened FileChannels
  import opened FileTransfer
  import opened FileOutcome

  datatype Event =
    | Do(step: Label)
    | Lose(k: nat)        // the k-th chunk in flight disappears

  predicate Possible(y: Sys, e: Event) {
    match e
    case Do(l) => Enabled(y, l)
    case Lose(k) => k < |y.data|
  }

  function Next(y: Sys, e: Event, sha: Sha): Sys
    requires Possible(y, e)
  {
    match e
    case Do(l) => Step(y, l, sha)
    case Lose(k) => y.(data := y.data[..k] + y.data[k + 1..])
  }

  predicate LossyRun(y: Sys, es: seq<Event>, sha: Sha)
    decreases |es|
  {
    es == [] || (Possible(y, es[0]) && LossyRun(Next(y, es[0], sha), es[1..], sha))
  }

  function AfterLossy(y: Sys, es: seq<Event>, sha: Sha): Sys
    requires LossyRun(y, es, sha)
    decreases |es|
  {
    if es == [] then y else AfterLossy(Next(y, es[0], sha), es[1..], sha)
  }

  predicate Lossless(es: seq<Event>) { forall k :: 0 <= k < |es| ==> es[k].Do? }

  // ---- A hole ---------------------------------------------------------------------------

  predicate Covers(c: FileChunk, i: nat, o: nat) { c.fileIndex == i && c.offset <= o < c.offset + |c.data| }

  /** Byte `o` of file `i` was sent, has not arrived, and is not on its way. */
  predicate Hole(y: Sys, i: nat, o: nat) {
    && y.snd.accepted && i < |y.snd.tracks| == |y.rcv.slots|
    && var t, s := y.snd.tracks[i], y.rcv.slots[i];
    && t.acked <= o < t.sent && o < t.Size()
    && s.acked <= o < s.size && !s.complete
    && (forall k :: 0 <= k < |y.data| ==> !Covers(y.data[k], i, o))
    && (forall k :: 0 <= k < |y.replies| ==> AtMost(y.replies[k], i, o))
  }

  predicate AtMost(m: Outbound, i: nat, o: nat) {
    m.Ack? && m.ack.fileIndex == i ==> m.ack.ackedThrough <= o
  }

  lemma {:induction false} HoleStaysOnSend(y: Sys, read: Read, sha: Sha, i: nat, o: nat)
    requires Hole(y, i, o) && Enabled(y, Send(read))
    ensures Hole(Step(y, Send(read), sha), i, o)
  {
    var y' := Step(y, Send(read), sha);
    forall k | 0 <= k < |y'.data| ensures !Covers(y'.data[k], i, o) {
      if k < |y.data| { assert y'.data[k] == y.data[k]; }
    }
  }

  lemma {:induction false} HoleStaysOnFinalize(r: ReceiverState, sha: Sha, faults: set<nat>, i: nat)
    requires i < |r.slots| && r.slots[i].acked < r.slots[i].size
    ensures var (r', _) := Finalizing(r, sha, faults); |r'.slots| == |r.slots| && r'.slots[i] == r.slots[i]
  {
  }

  /** Whatever arrives, the slot stays at or below the hole and no reply acks past it. */
  lemma {:induction false} HoleStaysOnReceive(r: ReceiverState, c: FileChunk, sha: Sha, writeOk: bool,
                                             faults: set<nat>, i: nat, o: nat)
    requires i < |r.slots| && r.slots[i].acked <= o < r.slots[i].size && !r.slots[i].complete
    requires !Covers(c, i, o)
    ensures var (r', out) := Receiving(r, c, sha, writeOk, faults);
            && |r'.slots| == |r.slots| && r'.slots[i].size == r.slots[i].size
            && r'.slots[i].acked <= o && !r'.slots[i].complete
            && (out.Ok? ==> forall k :: 0 <= k < |out.value| ==> AtMost(out.value[k], i, o))
  {
    if c.fileIndex < |r.slots| && c.offset == r.slots[c.fileIndex].acked {
      HoleStaysOnFinalize(WithChunk(r, c), sha, faults, i);
    }
  }

  lemma {:induction false} HoleStaysOnArrive(y: Sys, writeOk: bool, faults: set<nat>, sha: Sha, i: nat, o: nat)
    requires Hole(y, i, o) && y.data != []
    ensures Hole(Step(y, Arrive(writeOk, faults), sha), i, o)
  {
    HoleStaysOnReceive(y.rcv, y.data[0], sha, writeOk, faults, i, o);
    var y' := Step(y, Arrive(writeOk, faults), sha);
    forall k | 0 <= k < |y'.data| ensures !Covers(y'.data[k], i, o) { assert y'.data[k] == y.data[k + 1]; }
  }

  lemma {:induction false} HoleStaysOnReturn(y: Sys, sha: Sha, i: nat, o: nat)
    requires Hole(y, i, o) && y.replies != []
    ensures Hole(Step(y, Return, sha), i, o)
  {
    assert AtMost(y.replies[0], i, o);
    var y' := Step(y, Return, sha);
    forall k | 0 <= k < |y'.replies| ensures AtMost(y'.replies[k], i, o) {
      assert y'.replies[k] == y.replies[k + 1];
    }
  }

  lemma {:induction false} HoleStays(y: Sys, e: Event, sha: Sha, i: nat, o: nat)
    requires Hole(y, i, o) && Possible(y, e)
    ensures Hole(Next(y, e, sha), i, o)
  {
    match e {
      case Do(Send(read)) => HoleStaysOnSend(y, read, sha, i, o);
      case Do(Arrive(writeOk, faults)) => HoleStaysOnArrive(y, writeOk, faults, sha, i, o);
      case Do(Return) => HoleStaysOnReturn(y, sha, i, o);
      case Lose(j) =>
        var y' := Next(y, e, sha);
        forall k | 0 <= k < |y'.data| ensures !Covers(y'.data[k], i, o) {
          assert y'.data[k] == y.data[if k < j then k else k + 1];
        }
    }
  }

  lemma {:induction false} HoleIsForever(y: Sys, es: seq<Event>, sha: Sha, i: nat, o: nat)
    requires Hole(y, i, o) && LossyRun(y, es, sha)
    ensures Hole(AfterLossy(y, es, sha), i, o)
    decreases |es|
  {
    if es != [] {
      HoleStays(y, es[0], sha, i, o);
      HoleIsForever(Next(y, es[0], sha), es[1..], sha, i, o);
    }
  }

  // ---- Losing a chunk makes one ------------------------------------------------------------

  /** Chunks of a file lie within the chain. */
  lemma {:induction false} ChainWithin(q: seq<FileChunk>, i: nat, src: seq<byte>, from: nat, to: nat, k: nat)
    requires Chain(q, i, src, from, to) && k < |q| && q[k].fileIndex == i
    ensures from <= q[k].offset < q[k].offset + |q[k].data| <= to <= |src|
  {
    var next := if q[0].fileIndex == i then from + |q[0].data| else from;
    ChainBytes(q[1..], i, src, next, to);
    if k > 0 { ChainWithin(q[1..], i, src, next, to, k - 1); }
  }

  /** No two chunks of a file overlap. */
  lemma {:induction false} ChainDisjoint(q: seq<FileChunk>, i: nat, src: seq<byte>, from: nat, to: nat, j: nat, k: nat)
    requires Chain(q, i, src, from, to) && j < k < |q| && q[j].fileIndex == q[k].fileIndex == i
    ensures q[j].offset + |q[j].data| <= q[k].offset
  {
    var next := if q[0].fileIndex == i then from + |q[0].data| else from;
    if j == 0 {
      ChainWithin(q[1..], i, src, next, to, k - 1);
    } else {
      ChainDisjoint(q[1..], i, src, next, to, j - 1, k - 1);
    }
  }

  lemma {:induction false} LossMakesHole(y: Sys, k: nat, sha: Sha)
    requires Inv(y, sha) && !y.rcv.aborted && k < |y.data|
    ensures Hole(Next(y, Lose(k), sha), y.data[k].fileIndex, y.data[k].offset)
  {
    var c, y' := y.data[k], Next(y, Lose(k), sha);
    assert c in y.data;
    var i, o := c.fileIndex, c.offset;
    assert FileInv(y, i) && SlotInv(y, i, sha);
    var src, acked, sent := y.snd.tracks[i].source, y.rcv.slots[i].acked, y.Sent(i);
    ChainWithin(y.data, i, src, acked, sent, k);
    forall j | 0 <= j < |y'.data| ensures !Covers(y'.data[j], i, o) {
      var j' := if j < k then j else j + 1;
      assert y'.data[j] == y.data[j'];
      if y.data[j'].fileIndex == i {
        if j' < k { ChainDisjoint(y.data, i, src, acked, sent, j', k); }
        else { ChainDisjoint(y.data, i, src, acked, sent, k, j'); }
      }
    }
    AckFoldBound(y.replies, i, y.Acked(i));
    forall j | 0 <= j < |y'.replies| ensures AtMost(y'.replies[j], i, o) { assert y.replies[j] in y.replies; }
  }

  /** Once a chunk is lost on the way to a live receiver, neither side ever completes, whatever happens next. */
  lemma {:induction false} LossStalls(y: Sys, k: nat, es: seq<Event>, sha: Sha)
    requires Inv(y, sha) && !y.rcv.aborted && k < |y.data|
    requires LossyRun(Next(y, Lose(k), sha), es, sha)
    ensures var y' := AfterLossy(Next(y, Lose(k), sha), es, sha);
            !y'.snd.IsComplete() && !y'.rcv.IsComplete()
  {
    LossMakesHole(y, k, sha);
    HoleIsForever(Next(y, Lose(k), sha), es, sha, y.data[k].fileIndex, y.data[k].offset);
  }

  // ---- Losing a chunk after an abort changes nothing ------------------------------------------

  /** The receiver has aborted and the sender knows or will be told. */
  predicate Doomed(y: Sys) {
    && y.rcv.aborted
    && (y.snd.aborted || exists k :: 0 <= k < |y.replies| && y.replies[k] == Done(FileDone(y.snd.transferId, false)))
  }

  lemma {:induction false} AbortDooms(y: Sys, sha: Sha)
    requires Inv(y, sha) && y.rcv.aborted
    ensures Doomed(y)
  {
    if !y.snd.aborted {
      var m :| m in y.replies && IsFailure(m);
      var k :| 0 <= k < |y.replies| && y.replies[k] == m;
      assert ReplyOk(y, y.replies[k], k);
    }
  }

  lemma {:induction false} DoomStaysOnReturn(y: Sys, sha: Sha)
    requires Doomed(y) && y.replies != []
    ensures Doomed(Step(y, Return, sha))
  {
    var y' := Step(y, Return, sha);
    if !y.snd.aborted {
      var k :| 0 <= k < |y.replies| && y.replies[k] == Done(FileDone(y.snd.transferId, false));
      if k > 0 { assert y'.replies[k - 1] == y.replies[k]; }
    }
  }

  lemma {:induction false} DoomStays(y: Sys, e: Event, sha: Sha)
    requires Doomed(y) && Possible(y, e)
    ensures Doomed(Next(y, e, sha))
  {
    if e == Do(Return) {
      DoomStaysOnReturn(y, sha);
    } else {
      var y' := Next(y, e, sha);
      assert y'.replies == y.replies && y'.rcv.aborted && y'.snd.aborted == y.snd.aborted;
    }
  }

  lemma {:induction false} DoomIsForever(y: Sys, es: seq<Event>, sha: Sha)
    requires Doomed(y) && LossyRun(y, es, sha)
    ensures Doomed(AfterLossy(y, es, sha))
    decreases |es|
  {
    if es != [] {
      DoomStays(y, es[0], sha);
      DoomIsForever(Next(y, es[0], sha), es[1..], sha);
    }
  }

  // ---- Exactly when a transfer completes -------------------------------------------------------

  lemma {:induction false} CompleteFrom(y: Sys, es: seq<Event>, sha: Sha)
    requires Inv(y, sha) && LossyRun(y, es, sha) && Stuck(AfterLossy(y, es, sha))
    ensures var y' := AfterLossy(y, es, sha);
            && (y'.rcv.IsComplete() <==> !y'.rcv.aborted && Lossless(es))
            && (y'.snd.IsComplete() <==> !y'.rcv.aborted && Lossless(es))
    decreases |es|
  {
    var y' := AfterLossy(y, es, sha);
    if es == [] {
      StuckIsFinished(y, sha);
      Agreement(y, sha);
    } else {
      match es[0] {
        case Do(l) =>
          StepKeeps(y, l, sha);
          CompleteFrom(Step(y, l, sha), es[1..], sha);
          assert Lossless(es) <==> Lossless(es[1..]);
        case Lose(k) =>
          assert !Lossless(es);
          if y.rcv.aborted {
            AbortDooms(y, sha);
            DoomIsForever(y, es, sha);
            assert !Enabled(y', Return);
          } else {
            LossStalls(y, k, es[1..], sha);
          }
      }
    }
  }

  /** A run that can go no further has completed, on either side, exactly when it lost nothing and was not aborted. */
  lemma {:induction false} CompleteIffLossless(y0: Sys, config: Config, sinks: Sinks, faults: set<nat>,
                                              es: seq<Event>, sha: Sha)
    requires Init(y0, config, sinks, sha, faults) && LossyRun(y0, es, sha) && Stuck(AfterLossy(y0, es, sha))
    ensures var y := AfterLossy(y0, es, sha);
            && (y.rcv.IsComplete() <==> !y.rcv.aborted && Lossless(es))
            && (y.snd.IsComplete() <==> !y.rcv.aborted && Lossless(es))
  {
    InitInv(y0, config, sinks, sha, faults);
    CompleteFrom(y0, es, sha);
  }

  // ---- Runs with loss still end -----------------------------------------------------------------

  predicate Sending(y: Sys) {
    && y.snd.accepted && y.snd.chunkSize >= 1 && |y.held| == |y.snd.tracks|
    && forall i :: 0 <= i < |y.held| ==> y.snd.tracks[i].sent <= y.snd.tracks[i].Size()
  }

  lemma {:induction false} SendingOnSend(y: Sys, read: Read, sha: Sha)
    requires Sending(y) && Enabled(y, Send(read))
    ensures Sending(Step(y, Send(read), sha)) && Measure(Step(y, Send(read), sha)) < Measure(y)
  {
    var y' := Step(y, Send(read), sha);
    var k := FirstSendable(y.snd.tracks, 0);
    UnsentAfter(y, y', |y.held|, k, y'.snd.tracks[k].sent - y.snd.tracks[k].sent);
  }

  lemma {:induction false} SendingOnArrive(y: Sys, writeOk: bool, faults: set<nat>, sha: Sha)
    requires Sending(y) && y.data != []
    ensures var y' := Step(y, Arrive(writeOk, faults), sha); Sending(y') && Measure(y') < Measure(y)
  {
    var y' := Step(y, Arrive(writeOk, faults), sha);
    assert |y'.replies| <= |y.replies| + 2;
    UnsentAfter(y, y', |y.held|, 0, 0);
  }

  lemma {:induction false} SendingStays(y: Sys, e: Event, sha: Sha)
    requires Sending(y) && Possible(y, e)
    ensures Sending(Next(y, e, sha)) && Measure(Next(y, e, sha)) < Measure(y)
  {
    match e {
      case Do(Send(read)) => SendingOnSend(y, read, sha);
      case Do(Arrive(writeOk, faults)) => SendingOnArrive(y, writeOk, faults, sha);
      case Do(Return) => UnsentAfter(y, Next(y, e, sha), |y.held|, 0, 0);
      case Lose(_) => UnsentAfter(y, Next(y, e, sha), |y.held|, 0, 0);
    }
  }

  lemma {:induction false} SendingTerminates(y: Sys, es: seq<Event>, sha: Sha)
    requires Sending(y) && LossyRun(y, es, sha)
    ensures |es| <= Measure(y)
    decreases |es|
  {
    if es != [] {
      SendingStays(y, es[0], sha);
      SendingTerminates(Next(y, es[0], sha), es[1..], sha);
    }
  }

  /** Loss or not, every run is finite, so every run can be continued to one that goes no further. */
  lemma {:induction false} LossyTerminates(y: Sys, es: seq<Event>, sha: Sha)
    requires Inv(y, sha) && LossyRun(y, es, sha)
    ensures |es| <= Measure(y)
    decreases |es|
  {
    if es != [] {
      match es[0] {
        case Do(l) =>
          MeasureDrops(y, l, sha);
          LossyTerminates(Step(y, l, sha), es[1..], sha);
        case Lose(_) =>
          forall i | 0 <= i < |y.held| ensures y.snd.tracks[i].sent <= y.snd.tracks[i].Size() { assert FileInv(y, i); }
          SendingTerminates(y, es, sha);
      }
    }
  }

  // ---- A reachable loss ---------------------------------------------------------------------------

  /** One file of one byte, offered and accepted, with nothing held. */
  function OneByte(): Sys {
    var accept := Accept(FileAccept(1, []));
    Sys(SenderState(1, [Track("f", [7], None, 0, 0, false)], 1, false, false),
        ReceiverState(1, [Slot(1, 0, false, [], None)], false, false), [], [accept], [accept], [[]], false)
  }

  lemma {:induction false} OneByteIsInit(sha: Sha)
    ensures Init(OneByte(), Config(_ => true, [], None, None, None), [Some([])], sha, {})
  {
    var (y, config, sinks) := (OneByte(), Config(_ => true, [], None, None, None), [Some([])]);
    var offer := Offer(y.snd);
    assert offer.files == [FileEntry("f", 1, None)];
    assert FirstUnusable(offer.files, sinks, 0) == 1;
    assert FreshSlots(offer, config, sinks) == y.rcv.slots;
    assert FirstBad(y.rcv.slots, 0, sha, {}) == 1;
    assert MarkedBelow(y.rcv.slots, 1) == y.rcv.slots;
    assert ResumePoints(sinks, 1) == ResumePoints(sinks, 0) == [];
    assert Admissible(offer, config) && EntryOk(0, offer.files[0], config);
    assert Finalizing(y.rcv, sha, {}) == (y.rcv, None) by { assert !y.rcv.slots[0].complete; }
    assert y.replies + Reply(None) == y.replies;
    assert Offered(offer, config, sinks, sha, {}) == Ok((y.rcv, y.replies));
  }

  function Polled(): Sys {
    OneByte().(snd := SenderState(1, [Track("f", [7], None, 1, 0, false)], 1, true, false),
               data := [FileChunk(1, 0, 0, [7])], replies := [])
  }

  lemma {:induction false} OneByteIsPolled(sha: Sha)
    ensures Enabled(OneByte(), Return) && Enabled(Step(OneByte(), Return, sha), Send(ReadUpTo(1)))
    ensures Step(Step(OneByte(), Return, sha), Send(ReadUpTo(1)), sha) == Polled()
  {
    var y := OneByte();
    var y1 := y.(snd := y.snd.(accepted := true), replies := []);
    assert Step(y, Return, sha) == y1 by { assert ApplyResume(y.snd.tracks, []) == y.snd.tracks; }
    assert FirstSendable(y1.snd.tracks, 0) == 0;
    var (s2, r) := Polling(y1.snd, ReadUpTo(1));
    assert s2.tracks == Polled().snd.tracks && [7][0..1] == [7] && r == Ok(Some(FileChunk(1, 0, 0, [7])));
    assert [] + [FileChunk(1, 0, 0, [7])] == [FileChunk(1, 0, 0, [7])];
  }

  lemma {:induction false} HungIsStuck()
    ensures Stuck(Polled().(data := []))
    ensures !Polled().snd.IsComplete() && !Polled().rcv.IsComplete()
  {
    var y := Polled().(data := []);
    assert !y.snd.tracks[0].Sendable() && FirstSendable(y.snd.tracks, 0) == 1;
    assert y.snd.tracks[0].acked < y.snd.tracks[0].Size() && !y.rcv.slots[0].complete;
    forall l ensures !Enabled(y, l) {
      if l.Send? { assert Polling(y.snd, l.read).1 == Ok(None); }
    }
  }

  /** The loss of a single chunk, from an accepted offer of one byte: the transfer hangs, neither completed
      nor aborted on either side. */
  lemma {:induction false} LossExample(sha: Sha) returns (y0: Sys, config: Config, sinks: Sinks, es: seq<Event>)
    ensures Init(y0, config, sinks, sha, {}) && LossyRun(y0, es, sha) && Stuck(AfterLossy(y0, es, sha))
    ensures var y := AfterLossy(y0, es, sha);
            !y.snd.IsComplete() && !y.rcv.IsComplete() && !y.snd.aborted && !y.rcv.aborted
  {
    y0, config, sinks := OneByte(), Config(_ => true, [], None, None, None), [Some([])];
    OneByteIsInit(sha);
    OneByteIsPolled(sha);
    HungIsStuck();
    var y1 := Step(y0, Return, sha);
    var hung := Polled().(data := []);
    assert Next(Polled(), Lose(0), sha) == hung;
    assert AfterLossy(hung, [], sha) == hung;
    assert LossyRun(Polled(), [Lose(0)], sha) && AfterLossy(Polled(), [Lose(0)], sha) == hung by {
      assert [Lose(0)][1..] == [];
    }
    var es1 := [Do(Send(ReadUpTo(1))), Lose(0)];
    assert LossyRun(y1, es1, sha) && AfterLossy(y1, es1, sha) == hung by { assert es1[1..] == [Lose(0)]; }
    es := [Do(Return)] + es1;
    assert es[1..] == es1;
  }
}
