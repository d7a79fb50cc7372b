/** What the two FIFO channels of a transfer hold, read one file at a time. */
module FileChannels {
  import opened Common
  import opened FileTypes

  // ---- Data channel: sender to receiver ------------------------------------------

  /** The chunks of file `i` in `q` are, in order and without gaps, src[from..to]. */
  predicate Chain(q: seq<FileChunk>, i: nat, src: seq<byte>, from: nat, to: nat) {
    if q == [] then from == to <= |src|
    else if q[0].fileIndex != i then Chain(q[1..], i, src, from, to)
    else
      var end := from + |q[0].data|;
      && q[0].offset == from < end <= |src|
      && |q[0].data| <= MAX_CHUNK_SIZE
      && q[0].data == src[from..end]
      && Chain(q[1..], i, src, end, to)
  }

  /** All bytes of file `i` on the data channel, in channel order. */
  function BytesInFlight(q: seq<FileChunk>, i: nat): seq<byte> {
    if q == [] then []
    else (if q[0].fileIndex == i then q[0].data else []) + BytesInFlight(q[1..], i)
  }

  lemma {:induction false} ChainBytes(q: seq<FileChunk>, i: nat, src: seq<byte>, from: nat, to: nat)
    requires Chain(q, i, src, from, to)
    ensures from <= to <= |src|
    ensures BytesInFlight(q, i) == src[from..to]
  {
    if q != [] {
      if q[0].fileIndex == i {
        var end := from + |q[0].data|;
        ChainBytes(q[1..], i, src, end, to);
        assert src[from..end] + src[end..to] == src[from..to];
      } else {
        ChainBytes(q[1..], i, src, from, to);
      }
    }
  }

  lemma {:induction false} ChainAppend(q: seq<FileChunk>, c: FileChunk, i: nat, src: seq<byte>, from: nat, to: nat)
    requires Chain(q, i, src, from, to)
    requires c.fileIndex == i && c.offset == to && 1 <= |c.data| <= MAX_CHUNK_SIZE
    requires to + |c.data| <= |src| && c.data == src[to..to + |c.data|]
    ensures Chain(q + [c], i, src, from, to + |c.data|)
  {
    if q == [] {
      assert ([c])[1..] == [];
    } else {
      assert (q + [c])[1..] == q[1..] + [c];
      ChainAppend(q[1..], c, i, src, if q[0].fileIndex == i then from + |q[0].data| else from, to);
    }
  }

  lemma {:induction false} ChainAppendOther(q: seq<FileChunk>, c: FileChunk, i: nat, src: seq<byte>, from: nat, to: nat)
    requires Chain(q, i, src, from, to) && c.fileIndex != i
    ensures Chain(q + [c], i, src, from, to)
  {
    if q == [] {
      assert ([c])[1..] == [];
    } else {
      assert (q + [c])[1..] == q[1..] + [c];
      ChainAppendOther(q[1..], c, i, src, if q[0].fileIndex == i then from + |q[0].data| else from, to);
    }
  }

  // ---- Reply channel: receiver to sender -----------------------------------------

  /** The cumulative ack of file `i` once every queued reply has been applied over `base`. */
  function AckFold(q: seq<Outbound>, i: nat, base: nat): nat {
    if q == [] then base
    else if q[0].Ack? && q[0].ack.fileIndex == i then AckFold(q[1..], i, Max(base, q[0].ack.ackedThrough))
    else AckFold(q[1..], i, base)
  }

  lemma {:induction false} AckFoldAppend(q: seq<Outbound>, m: Outbound, i: nat, base: nat)
    ensures AckFold(q + [m], i, base) ==
            if m.Ack? && m.ack.fileIndex == i then Max(AckFold(q, i, base), m.ack.ackedThrough)
            else AckFold(q, i, base)
  {
    if q == [] {
      assert ([m])[1..] == [];
    } else {
      assert (q + [m])[1..] == q[1..] + [m];
      AckFoldAppend(q[1..], m, i,
        if q[0].Ack? && q[0].ack.fileIndex == i then Max(base, q[0].ack.ackedThrough) else base);
    }
  }

  lemma {:induction false} AckFoldBound(q: seq<Outbound>, i: nat, base: nat)
    ensures base <= AckFold(q, i, base)
    ensures forall m :: m in q && m.Ack? && m.ack.fileIndex == i ==> m.ack.ackedThrough <= AckFold(q, i, base)
  {
    if q != [] {
      AckFoldBound(q[1..], i,
        if q[0].Ack? && q[0].ack.fileIndex == i then Max(base, q[0].ack.ackedThrough) else base);
    }
  }

  lemma {:induction false} AckFoldQuiet(q: seq<Outbound>, i: nat, base: nat)
    requires forall m :: m in q ==> !m.Ack?
    ensures AckFold(q, i, base) == base
  {
    if q != [] { AckFoldQuiet(q[1..], i, base); }
  }

  function DoneCount(q: seq<Outbound>): nat {
    if q == [] then 0 else (if q[0].Done? then 1 else 0) + DoneCount(q[1..])
  }

  lemma {:induction false} DoneCountAppend(q: seq<Outbound>, more: seq<Outbound>)
    ensures DoneCount(q + more) == DoneCount(q) + DoneCount(more)
  {
    if q == [] {
      assert q + more == more;
    } else {
      assert (q + more)[1..] == q[1..] + more;
      DoneCountAppend(q[1..], more);
    }
  }
}
