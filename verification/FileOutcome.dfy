/** Whole runs of a transfer: reachability, termination, no deadlock, agreement and delivery. */
module FileOutcome {
  import opened Common
  import opened FileTypes
  import opened FileSender
  import opened FileReceiver
  import opened FileChannels
  import opened FileTransfer

  predicate Runs(y: Sys, ls: seq<Label>, sha: Sha)
    decreases |ls|
  {
    ls == [] || (Enabled(y, ls[0]) && Runs(Step(y, ls[0], sha), ls[1..], sha))
  }

  function After(y: Sys, ls: seq<Label>, sha: Sha): Sys
    requires Runs(y, ls, sha)
    decreases |ls|
  {
    if ls == [] then y else After(Step(y, ls[0], sha), ls[1..], sha)
  }

  ghost predicate Stuck(y: Sys) { forall l :: !Enabled(y, l) }

  lemma {:induction false} RunKeeps(y: Sys, ls: seq<Label>, sha: Sha)
    requires Inv(y, sha) && Runs(y, ls, sha)
    ensures Inv(After(y, ls, sha), sha)
    decreases |ls|
  {
    if ls != [] {
      StepKeeps(y, ls[0], sha);
      RunKeeps(Step(y, ls[0], sha), ls[1..], sha);
    }
  }

  // ---- Every reachable state -----------------------------------------------------

  /** No delivered message is ever refused, and the per-file window, order and content hold. */
  lemma {:induction false} ReachableFile(y0: Sys, config: Config, sinks: Sinks, faults: set<nat>,
                                         ls: seq<Label>, sha: Sha, i: nat)
    requires Init(y0, config, sinks, sha, faults) && Runs(y0, ls, sha) && i < |y0.held|
    ensures var y := After(y0, ls, sha);
            && !y.refused && |y.snd.tracks| == |y.rcv.slots| == |y0.held| && y.held == y0.held
            && var t, s := y.snd.tracks[i], y.rcv.slots[i];
            && t.source == y0.snd.tracks[i].source && s.size == t.Size()
            && |y.held[i]| <= s.acked <= s.size
            && s.sink == y.held[i] + t.source[|y.held[i]|..s.acked]
            && (y.snd.accepted ==>
                  && t.acked <= s.acked <= t.sent <= t.Size()
                  && t.sent - t.acked <= MAX_IN_FLIGHT_PER_FILE
                  && (!y.rcv.aborted ==> BytesInFlight(y.data, i) == t.source[s.acked..t.sent]))
            && (!y.snd.accepted ==> y.data == [])
  {
    InitInv(y0, config, sinks, sha, faults);
    RunKeeps(y0, ls, sha);
    Constants(y0, ls, sha);
    var y := After(y0, ls, sha);
    assert FileInv(y, i);
    if y.snd.accepted && !y.rcv.aborted {
      ChainBytes(y.data, i, y.snd.tracks[i].source, y.rcv.slots[i].acked, y.snd.tracks[i].sent);
    }
  }

  /** What no step changes. */
  predicate SameStatics(y: Sys, y': Sys) {
    && y'.held == y.held && |y'.snd.tracks| == |y.snd.tracks| == |y.rcv.slots| == |y'.rcv.slots| == |y.held|
    && forall i :: 0 <= i < |y.held| ==>
         y'.snd.tracks[i].source == y.snd.tracks[i].source && y'.rcv.slots[i].expected == y.rcv.slots[i].expected
  }

  lemma {:induction false} StepStatics(y: Sys, l: Label, sha: Sha)
    requires Inv(y, sha) && Enabled(y, l)
    ensures SameStatics(y, Step(y, l, sha))
  {
    if l.Arrive? && !y.rcv.aborted {
      ArrivalIsNext(y, sha);
      if l.writeOk {
        forall i | 0 <= i < |y.held| ensures Step(y, l, sha).rcv.slots[i].expected == y.rcv.slots[i].expected {
          StoredSlots(y, l.faults, sha, i);
        }
      }
    }
  }

  lemma {:induction false} Constants(y: Sys, ls: seq<Label>, sha: Sha)
    requires Inv(y, sha) && Runs(y, ls, sha)
    ensures SameStatics(y, After(y, ls, sha))
    decreases |ls|
  {
    if ls != [] {
      StepKeeps(y, ls[0], sha);
      StepStatics(y, ls[0], sha);
      Constants(Step(y, ls[0], sha), ls[1..], sha);
    }
  }

  // ---- Termination ---------------------------------------------------------------

  /** Bytes of the first `n` files not yet put on the wire. */
  function Unsent(y: Sys, n: nat): nat
    requires n <= |y.held| == |y.snd.tracks|
  {
    if n == 0 then 0 else Unsent(y, n - 1) + SatSub(y.snd.tracks[n - 1].Size(), y.Sent(n - 1))
  }

  function Measure(y: Sys): nat
    requires |y.held| == |y.snd.tracks|
  {
    4 * Unsent(y, |y.held|) + 3 * |y.data| + |y.replies|
  }

  lemma {:induction false} UnsentAfter(y: Sys, y': Sys, n: nat, k: nat, bytes: nat)
    requires n <= |y.held| == |y'.held| == |y.snd.tracks| == |y'.snd.tracks|
    requires forall i :: 0 <= i < n ==>
               y'.Sent(i) <= y'.snd.tracks[i].Size() == y.snd.tracks[i].Size()
               && y'.Sent(i) == y.Sent(i) + (if i == k then bytes else 0)
    ensures Unsent(y', n) + (if k < n then bytes else 0) == Unsent(y, n)
  {
    if n > 0 { UnsentAfter(y, y', n - 1, k, bytes); }
  }

  lemma {:induction false} AcceptSent(y: Sys, sha: Sha, i: nat)
    requires Inv(y, sha) && y.replies != [] && y.replies[0].Accept? && i < |y.held|
    requires Inv(Step(y, Return, sha), sha)
    ensures Step(y, Return, sha).Sent(i) == y.Sent(i)
  {
    assert ReplyOk(y, y.replies[0], 0);
    assert y.snd.tracks[i].sent == 0;
  }

  lemma {:induction false} SendDrops(y: Sys, read: Read, sha: Sha)
    requires Inv(y, sha) && Enabled(y, Send(read)) && Inv(Step(y, Send(read), sha), sha)
    ensures Measure(Step(y, Send(read), sha)) < Measure(y)
  {
    var y' := Step(y, Send(read), sha);
    var k, n := SendStep(y, read, sha);
    assert |y'.data| == |y.data| + 1;
    forall i | 0 <= i < |y.held|
      ensures y'.Sent(i) <= y'.snd.tracks[i].Size() == y.snd.tracks[i].Size()
              && y'.Sent(i) == y.Sent(i) + (if i == k then n else 0)
    {
      assert FileInv(y', i);
    }
    UnsentAfter(y, y', |y.held|, k, n);
  }

  lemma {:induction false} ArriveDrops(y: Sys, writeOk: bool, faults: set<nat>, sha: Sha)
    requires Inv(y, sha) && y.data != [] && Inv(Step(y, Arrive(writeOk, faults), sha), sha)
    ensures Measure(Step(y, Arrive(writeOk, faults), sha)) < Measure(y)
  {
    var y' := Step(y, Arrive(writeOk, faults), sha);
    assert y.data[0] in y.data;
    assert |y'.data| == |y.data| - 1 && |y'.replies| <= |y.replies| + 2 && y'.snd == y.snd;
    forall i | 0 <= i < |y.held| ensures y'.Sent(i) == y.Sent(i) <= y.snd.tracks[i].Size() {
      assert FileInv(y, i);
    }
    UnsentAfter(y, y', |y.held|, 0, 0);
  }

  lemma {:induction false} ReturnDrops(y: Sys, sha: Sha)
    requires Inv(y, sha) && y.replies != [] && Inv(Step(y, Return, sha), sha)
    ensures Measure(Step(y, Return, sha)) < Measure(y)
  {
    var y' := Step(y, Return, sha);
    StepStatics(y, Return, sha);
    forall i | 0 <= i < |y.held| ensures y'.Sent(i) == y.Sent(i) <= y'.snd.tracks[i].Size() {
      assert FileInv(y', i) && ReplyOk(y, y.replies[0], 0);
      if y.replies[0].Accept? { AcceptSent(y, sha, i); }
    }
    UnsentAfter(y, y', |y.held|, 0, 0);
  }

  lemma {:induction false} MeasureDrops(y: Sys, l: Label, sha: Sha)
    requires Inv(y, sha) && Enabled(y, l)
    ensures Inv(Step(y, l, sha), sha) && Measure(Step(y, l, sha)) < Measure(y)
  {
    StepKeeps(y, l, sha);
    match l {
      case Send(read) => SendDrops(y, read, sha);
      case Arrive(writeOk, faults) => ArriveDrops(y, writeOk, faults, sha);
      case Return => ReturnDrops(y, sha);
    }
  }

  /** Every run is finite: it is no longer than the measure of the state it starts in. */
  lemma {:induction false} Terminates(y: Sys, ls: seq<Label>, sha: Sha)
    requires Inv(y, sha) && Runs(y, ls, sha)
    ensures |ls| <= Measure(y)
    decreases |ls|
  {
    if ls != [] {
      MeasureDrops(y, ls[0], sha);
      Terminates(Step(y, ls[0], sha), ls[1..], sha);
    }
  }

  // ---- How a transfer ends ----------------------------------------------------------

  /** With both channels drained the two sides agree on completion and on abort. */
  lemma {:induction false} Agreement(y: Sys, sha: Sha)
    requires Inv(y, sha) && y.data == [] && y.replies == []
    ensures y.snd.accepted
    ensures y.snd.aborted <==> y.rcv.aborted
    ensures y.snd.IsComplete() <==> y.rcv.IsComplete()
  {
    forall i | 0 <= i < |y.held|
      ensures y.snd.tracks[i].acked == y.rcv.slots[i].acked <= y.snd.tracks[i].Size()
              && (y.rcv.aborted || (y.rcv.slots[i].complete <==> y.rcv.slots[i].acked == y.rcv.slots[i].size))
    {
      assert FileInv(y, i) && SlotInv(y, i, sha);
    }
    if y.snd.IsComplete() {
      forall i | 0 <= i < |y.rcv.slots| ensures y.rcv.slots[i].complete {
        assert y.snd.tracks[i].acked >= y.snd.tracks[i].Size();
      }
    }
    if y.rcv.IsComplete() {
      forall i | 0 <= i < |y.snd.tracks| ensures y.snd.tracks[i].acked >= y.snd.tracks[i].Size() {
        assert y.rcv.slots[i].complete;
      }
    }
  }

  /** No deadlock: a state from which nothing can happen is a finished transfer. */
  lemma {:induction false} StuckIsFinished(y: Sys, sha: Sha)
    requires Inv(y, sha) && Stuck(y)
    ensures y.data == [] && y.replies == []
    ensures (y.snd.IsComplete() && y.rcv.IsComplete()) || (y.snd.aborted && y.rcv.aborted)
  {
    assert !Enabled(y, Arrive(true, {}));
    assert !Enabled(y, Return);
    assert !Enabled(y, Send(ReadUpTo(1)));
    Agreement(y, sha);
    if !y.rcv.aborted {
      assert FirstSendable(y.snd.tracks, 0) == |y.snd.tracks|;
      forall i | 0 <= i < |y.snd.tracks| ensures y.snd.tracks[i].acked >= y.snd.tracks[i].Size() {
        assert FileInv(y, i);
        assert !y.snd.tracks[i].Sendable();
      }
    }
  }

  lemma {:induction false} TwoDones(q: seq<Outbound>, a: Outbound, b: Outbound)
    requires a in q && b in q && a != b && a.Done? && b.Done?
    ensures DoneCount(q) >= 2
  {
    if q[0] != a && q[0] != b {
      TwoDones(q[1..], a, b);
    } else {
      OneDone(q[1..], if q[0] == a then b else a);
    }
  }

  lemma {:induction false} OneDone(q: seq<Outbound>, a: Outbound)
    requires a in q && a.Done?
    ensures DoneCount(q) >= 1
  {
    if q[0] != a { OneDone(q[1..], a); }
  }

  /** The sink of file `i` is what it held plus the rest of the file, and has the expected digest. */
  predicate Whole(y: Sys, i: nat, sha: Sha) {
    && i < |y.held| && i < |y.snd.tracks| && i < |y.rcv.slots|
    && var s, src := y.rcv.slots[i], y.snd.tracks[i].source;
    && |y.held[i]| <= |src|
    && s.sink == y.held[i] + src[|y.held[i]|..]
    && (s.expected.Some? ==> sha(s.sink) == s.expected.value)
  }

  lemma {:induction false} CompleteIsWhole(y: Sys, sha: Sha, i: nat)
    requires Inv(y, sha) && i < |y.held| && y.rcv.slots[i].complete
    ensures Whole(y, i, sha)
  {
    assert FileInv(y, i) && SlotInv(y, i, sha);
    var src := y.snd.tracks[i].source;
    assert src[|y.held[i]|..|src|] == src[|y.held[i]|..];
  }

  lemma {:induction false} SuccessIsComplete(y: Sys, sha: Sha)
    requires Inv(y, sha) && Done(FileDone(y.rcv.transferId, true)) in y.log
    ensures y.rcv.IsComplete()
  {
    var success := Done(FileDone(y.rcv.transferId, true));
    OneDone(y.log, success);
    if y.rcv.aborted {
      var m :| m in y.log && IsFailure(m);
      TwoDones(y.log, success, m);
    }
  }

  /** The digest a file must have: the caller's if it gave one, else the one the sender offered, else none. */
  predicate HasPromisedDigest(config: Config, offered: Option<Digest>, i: nat, bytes: seq<byte>, sha: Sha) {
    if i < |config.expected| && config.expected[i].Some? then sha(bytes) == config.expected[i].value
    else offered.Some? ==> sha(bytes) == offered.value
  }

  lemma {:induction false} InitExpects(y: Sys, config: Config, sinks: Sinks, faults: set<nat>, sha: Sha, i: nat)
    requires Init(y, config, sinks, sha, faults) && i < |y.held|
    ensures i < |y.rcv.slots| && i < |y.snd.tracks|
    ensures y.rcv.slots[i].expected ==
            if i < |config.expected| && config.expected[i].Some? then config.expected[i] else y.snd.tracks[i].sha256
  {
    AcceptedOffer(y, config, sinks, sha, faults);
    var r0 := StartOf(y, config, sinks);
    assert r0.slots[i] == FreshSlot(i, Offer(y.snd).files[i], config, sinks[i].value);
    FinalizingKeeps(r0, sha, faults, i);
  }

  /** At most one FileDone is ever emitted, and a successful one means every file is whole and has the digest the
      caller or the offer promised for it. */
  lemma {:induction false} SuccessIsVerified(y0: Sys, config: Config, sinks: Sinks, faults: set<nat>,
                                             ls: seq<Label>, sha: Sha)
    requires Init(y0, config, sinks, sha, faults) && Runs(y0, ls, sha)
    ensures DoneCount(After(y0, ls, sha).log) <= 1
    ensures Done(FileDone(After(y0, ls, sha).rcv.transferId, true)) in After(y0, ls, sha).log ==>
              forall i :: 0 <= i < |y0.held| ==>
                && Whole(After(y0, ls, sha), i, sha)
                && HasPromisedDigest(config, y0.snd.tracks[i].sha256, i, After(y0, ls, sha).rcv.slots[i].sink, sha)
  {
    InitInv(y0, config, sinks, sha, faults);
    SuccessFrom(y0, ls, sha);
    Constants(y0, ls, sha);
    forall i | 0 <= i < |y0.held| && Whole(After(y0, ls, sha), i, sha)
      ensures HasPromisedDigest(config, y0.snd.tracks[i].sha256, i, After(y0, ls, sha).rcv.slots[i].sink, sha)
    {
      InitExpects(y0, config, sinks, faults, sha, i);
    }
  }

  lemma {:induction false} SuccessFrom(y0: Sys, ls: seq<Label>, sha: Sha)
    requires Inv(y0, sha) && Runs(y0, ls, sha)
    ensures DoneCount(After(y0, ls, sha).log) <= 1
    ensures Done(FileDone(After(y0, ls, sha).rcv.transferId, true)) in After(y0, ls, sha).log ==>
              forall i :: 0 <= i < |y0.held| ==> Whole(After(y0, ls, sha), i, sha)
  {
    RunKeeps(y0, ls, sha);
    Constants(y0, ls, sha);
    var y := After(y0, ls, sha);
    if Done(FileDone(y.rcv.transferId, true)) in y.log {
      SuccessIsComplete(y, sha);
      forall i | 0 <= i < |y.held| ensures Whole(y, i, sha) { CompleteIsWhole(y, sha, i); }
    }
  }

  // ---- Fault-free delivery ------------------------------------------------------------

  /** What was held is a prefix of the file and every expected digest is the file's own. */
  predicate Consistent(y: Sys, sha: Sha) {
    && |y.held| == |y.snd.tracks| == |y.rcv.slots|
    && forall i :: 0 <= i < |y.held| ==>
         && y.held[i] <= y.snd.tracks[i].source
         && (y.rcv.slots[i].expected.Some? ==> y.rcv.slots[i].expected.value == sha(y.snd.tracks[i].source))
  }

  predicate Healthy(ls: seq<Label>) {
    forall l :: l in ls && l.Arrive? ==> l.writeOk && l.faults == {}
  }

  lemma {:induction false} HealthyFinalize(r: ReceiverState, sources: seq<seq<byte>>, sha: Sha)
    requires !r.aborted && |sources| == |r.slots|
    requires forall i :: 0 <= i < |r.slots| ==> Reached(r.slots[i]) ==> r.slots[i].sink == sources[i]
    requires forall i :: 0 <= i < |r.slots| ==>
               (r.slots[i].expected.Some? ==> r.slots[i].expected.value == sha(sources[i]))
    ensures !Finalizing(r, sha, {}).0.aborted
  {
    assert FirstBad(r.slots, 0, sha, {}) == |r.slots|;
  }

  /** A file the arriving chunk completes then equals its source. */
  lemma {:induction false} ArrivalCompletes(y: Sys, sha: Sha, i: nat)
    requires Inv(y, sha) && Consistent(y, sha) && !y.rcv.aborted && y.data != [] && i < |y.held|
    requires y.data[0].fileIndex < |y.rcv.slots| && Reached(WithChunk(y.rcv, y.data[0]).slots[i])
    ensures WithChunk(y.rcv, y.data[0]).slots[i].sink == y.snd.tracks[i].source
  {
    ArrivalIsNext(y, sha);
    assert FileInv(y, i) && SlotInv(y, i, sha);
    WholeFile(y.held[i], y.snd.tracks[i].source, y.rcv.slots[i].acked);
  }

  lemma {:induction false} WholeFile(held: seq<byte>, src: seq<byte>, acked: nat)
    requires held <= src && |held| <= acked <= |src|
    ensures held + src[|held|..acked] + src[acked..|src|] == src
  {
  }

  lemma {:induction false} HealthyArrival(y: Sys, sha: Sha)
    requires Inv(y, sha) && Consistent(y, sha) && !y.rcv.aborted && y.data != []
    ensures !Step(y, Arrive(true, {}), sha).rcv.aborted
  {
    StoredStep(y, {}, sha);
    var r := WithChunk(y.rcv, y.data[0]);
    var sources := seq(|y.held|, i requires 0 <= i < |y.held| => y.snd.tracks[i].source);
    forall i | 0 <= i < |r.slots| && Reached(r.slots[i]) ensures r.slots[i].sink == sources[i] {
      ArrivalCompletes(y, sha, i);
    }
    HealthyFinalize(r, sources, sha);
  }

  lemma {:induction false} HealthyRun(y: Sys, ls: seq<Label>, sha: Sha)
    requires Inv(y, sha) && Consistent(y, sha) && !y.rcv.aborted
    requires Runs(y, ls, sha) && Healthy(ls)
    ensures !After(y, ls, sha).rcv.aborted
    decreases |ls|
  {
    if ls != [] {
      var y1 := Step(y, ls[0], sha);
      assert ls[0] in ls;
      StepKeeps(y, ls[0], sha);
      Constants(y, ls[..1], sha);
      OneStep(y, ls, sha);
      if ls[0].Arrive? { HealthyArrival(y, sha); }
      HealthyRun(y1, ls[1..], sha);
    }
  }

  lemma {:induction false} OneStep(y: Sys, ls: seq<Label>, sha: Sha)
    requires ls != [] && Runs(y, ls, sha)
    ensures Runs(y, ls[..1], sha) && After(y, ls[..1], sha) == Step(y, ls[0], sha)
  {
    assert ls[..1][1..] == [];
  }

  lemma {:induction false} PrefixAndRest(held: seq<byte>, src: seq<byte>)
    requires held <= src
    ensures held + src[|held|..] == src
  {
  }

  lemma {:induction false} DeliveryFrom(y0: Sys, ls: seq<Label>, sha: Sha)
    requires Inv(y0, sha) && Consistent(y0, sha) && !y0.rcv.aborted
    requires Runs(y0, ls, sha) && Healthy(ls) && Stuck(After(y0, ls, sha))
    ensures var y := After(y0, ls, sha);
            && y.snd.IsComplete() && y.rcv.IsComplete()
            && |y.rcv.slots| == |y0.snd.tracks|
            && forall i :: 0 <= i < |y.rcv.slots| ==> y.rcv.slots[i].sink == y0.snd.tracks[i].source
  {
    HealthyRun(y0, ls, sha);
    RunKeeps(y0, ls, sha);
    Constants(y0, ls, sha);
    var y := After(y0, ls, sha);
    StuckIsFinished(y, sha);
    forall i | 0 <= i < |y.rcv.slots| ensures y.rcv.slots[i].sink == y0.snd.tracks[i].source {
      CompleteIsWhole(y, sha, i);
      PrefixAndRest(y.held[i], y0.snd.tracks[i].source);
    }
  }

  /** A fault-free run that can go no further has delivered every file byte for byte, and both sides know. */
  lemma {:induction false} Delivery(y0: Sys, config: Config, sinks: Sinks, ls: seq<Label>, sha: Sha)
    requires Init(y0, config, sinks, sha, {}) && Consistent(y0, sha)
    requires Runs(y0, ls, sha) && Healthy(ls) && Stuck(After(y0, ls, sha))
    ensures After(y0, ls, sha).snd.IsComplete() && After(y0, ls, sha).rcv.IsComplete()
    ensures |After(y0, ls, sha).rcv.slots| == |y0.snd.tracks|
    ensures forall i :: 0 <= i < |y0.snd.tracks| ==>
              After(y0, ls, sha).rcv.slots[i].sink == y0.snd.tracks[i].source
  {
    InitInv(y0, config, sinks, sha, {});
    HealthyStart(y0, config, sinks, sha);
    DeliveryFrom(y0, ls, sha);
  }

  lemma {:induction false} HealthyStart(y0: Sys, config: Config, sinks: Sinks, sha: Sha)
    requires Init(y0, config, sinks, sha, {}) && Consistent(y0, sha)
    ensures !y0.rcv.aborted
  {
    AcceptedOffer(y0, config, sinks, sha, {});
    var r0 := StartOf(y0, config, sinks);
    var sources := seq(|y0.held|, i requires 0 <= i < |y0.held| => y0.snd.tracks[i].source);
    forall i | 0 <= i < |r0.slots|
      ensures Reached(r0.slots[i]) ==> r0.slots[i].sink == sources[i]
      ensures r0.slots[i].expected.Some? ==> r0.slots[i].expected.value == sha(sources[i])
    {
      assert r0.slots[i] == FreshSlot(i, Offer(y0.snd).files[i], config, sinks[i].value);
      FinalizingKeeps(r0, sha, {}, i);
    }
    HealthyFinalize(r0, sources, sha);
  }
}
