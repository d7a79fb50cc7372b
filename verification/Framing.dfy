/** Length-prefixed frames: len (u32 LE) | type (u16 LE) | flags (u16 LE) | payload. */
module Framing {
  import opened Common

  const MAX_CONTROL_FRAME: nat := 256 * 1024
  const MAX_BULK_FRAME: nat := 2 * 1024 * 1024
  const HEADER: nat := 8
  const U16_MAX: nat := 0xFFFF

  datatype Frame = Frame(msgType: nat, flags: nat, payload: seq<byte>)
  {
    predicate Valid() { msgType <= U16_MAX && flags <= U16_MAX }
    function Len(): nat { HEADER - 4 + |payload| }
    /** The frame fits a stream whose messages are capped at `max`. */
    predicate Fits(max: nat) { Valid() && Len() <= max <= U32_MAX }
  }

  datatype FrameError = Truncated | TooLarge

  function Le16(n: nat): seq<byte>
    requires n <= U16_MAX
  {
    [(n % 256) as byte, (n / 256) as byte]
  }

  function Le32(n: nat): seq<byte>
    requires n <= U32_MAX
  {
    [(n % 256) as byte, (n / 256 % 256) as byte, (n / 65536 % 256) as byte, (n / 16777216) as byte]
  }

  function FromLe16(b: seq<byte>): nat
    requires |b| == 2
  {
    b[0] as nat + 256 * b[1] as nat
  }

  function FromLe32(b: seq<byte>): nat
    requires |b| == 4
  {
    b[0] as nat + 256 * b[1] as nat + 65536 * b[2] as nat + 16777216 * b[3] as nat
  }

  function Bytes(f: Frame): seq<byte>
    requires f.Fits(U32_MAX)
  {
    Le32(f.Len()) + Le16(f.msgType) + Le16(f.flags) + f.payload
  }

  /** Fails exactly on an oversize payload; otherwise appends length, type, flags and payload. */
  method EncodeFrameCapped(f: Frame, max: nat) returns (r: Result<seq<byte>, FrameError>)
    requires f.Valid() && max <= U32_MAX
    ensures r == if f.Fits(max) then Ok(Bytes(f)) else Err(TooLarge)
  {
    var len := HEADER - 4 + |f.payload|;
    if len > max { return Err(TooLarge); }
    var out := [];
    out := out + Le32(len);
    out := out + Le16(f.msgType);
    out := out + Le16(f.flags);
    out := out + f.payload;
    assert out == Bytes(f);
    r := Ok(out);
  }

  function DecodeFrame(buf: seq<byte>): Result<(Frame, nat), FrameError> {
    if |buf| < 4 then Err(Truncated)
    else
      var len := FromLe32(buf[..4]);
      if len < HEADER - 4 || len > MAX_CONTROL_FRAME then Err(TooLarge)
      else if |buf| < 4 + len then Err(Truncated)
      else Ok((Frame(FromLe16(buf[4..6]), FromLe16(buf[6..8]), buf[8..4 + len]), 4 + len))
  }

  // ---- Both ways -----------------------------------------------------------------------------

  lemma {:induction false} LeRoundTrip(n: nat)
    ensures n <= U16_MAX ==> FromLe16(Le16(n)) == n
    ensures n <= U32_MAX ==> FromLe32(Le32(n)) == n
  {
  }

  lemma {:induction false} LeRoundTripBytes(b: seq<byte>)
    ensures |b| == 2 ==> FromLe16(b) <= U16_MAX && Le16(FromLe16(b)) == b
    ensures |b| == 4 ==> FromLe32(b) <= U32_MAX && Le32(FromLe32(b)) == b
  {
    if |b| == 4 {
      var n := FromLe32(b);
      assert n / 256 == b[1] as nat + 256 * b[2] as nat + 65536 * b[3] as nat;
      assert n / 65536 == b[2] as nat + 256 * b[3] as nat;
      assert n / 16777216 == b[3] as nat;
    }
  }

  /** The bytes spell the number with the least significant first. */
  lemma {:induction false} LittleEndian(n: nat)
    ensures n <= U16_MAX ==>
              |Le16(n)| == 2 && n == Le16(n)[0] as nat + 256 * Le16(n)[1] as nat
    ensures n <= U32_MAX ==>
              |Le32(n)| == 4 && n == Le32(n)[0] as nat + 256 * Le32(n)[1] as nat
                                     + 65536 * Le32(n)[2] as nat + 16777216 * Le32(n)[3] as nat
  {
    LeRoundTrip(n);
  }

  /** A frame of type 0x0102 with flags 0x0304 and one payload byte, as it is on the wire. */
  lemma {:induction false} WireExample()
    ensures Bytes(Frame(0x0102, 0x0304, [9])) == [5, 0, 0, 0, 2, 1, 4, 3, 9]
  {
  }

  lemma {:induction false} BytesParts(f: Frame, rest: seq<byte>)
    requires f.Fits(U32_MAX)
    ensures var s := Bytes(f) + rest;
            && |Bytes(f)| == 4 + f.Len()
            && s[..4] == Le32(f.Len()) && s[4..6] == Le16(f.msgType) && s[6..8] == Le16(f.flags)
            && s[8..4 + f.Len()] == f.payload && s[4 + f.Len()..] == rest
  {
  }

  /** Decoding an encoded control frame followed by anything gives the frame and its exact length. */
  lemma {:induction false} DecodeEncoded(f: Frame, rest: seq<byte>)
    requires f.Fits(MAX_CONTROL_FRAME)
    ensures DecodeFrame(Bytes(f) + rest) == Ok((f, |Bytes(f)|))
  {
    BytesParts(f, rest);
    LeRoundTrip(f.Len());
    LeRoundTrip(f.msgType);
    LeRoundTrip(f.flags);
  }

  /** Whatever decodes is the encoding of what it decodes to. */
  lemma {:induction false} EncodeDecoded(buf: seq<byte>)
    requires DecodeFrame(buf).Ok?
    ensures var (f, n) := DecodeFrame(buf).value;
            f.Fits(MAX_CONTROL_FRAME) && n <= |buf| && buf[..n] == Bytes(f)
  {
    var (f, n) := DecodeFrame(buf).value;
    LeRoundTripBytes(buf[..4]);
    LeRoundTripBytes(buf[4..6]);
    LeRoundTripBytes(buf[6..8]);
    assert buf[..n] == buf[..4] + buf[4..6] + buf[6..8] + buf[8..n];
  }

  /** A strict prefix of an encoded frame is reported as truncated, never as something else. */
  lemma {:induction false} PrefixIsTruncated(f: Frame, n: nat)
    requires f.Fits(MAX_CONTROL_FRAME) && n < |Bytes(f)|
    ensures DecodeFrame(Bytes(f)[..n]) == Err(Truncated)
  {
    BytesParts(f, []);
    LeRoundTrip(f.Len());
    assert Bytes(f) + [] == Bytes(f);
    if n >= 4 { assert Bytes(f)[..n][..4] == Bytes(f)[..4]; }
  }
}

/** The receive side of the control stream: bytes survive cancellation, frames come out whole and in order. */
module ControlStream {
  import opened Common
  import opened Framing

  const TYPE_STREAM_PRIME: nat := 0xFFFF

  datatype NetError = Closed | BadLength

  /** What one receive attempt ends with. */
  datatype Outcome = Received(msgType: nat, payload: seq<byte>) | Cancelled | Failed(error: NetError)

  /** Buffered bytes, and the chunks the transport will return, in order. */
  datatype Recv = Recv(buf: seq<byte>, chunks: seq<seq<byte>>)
  {
    function Content(): seq<byte> { buf + Flat(chunks) }
    predicate Open() { forall i :: 0 <= i < |chunks| ==> chunks[i] != [] }
  }

  function Flat(chunks: seq<seq<byte>>): seq<byte> {
    if chunks == [] then [] else chunks[0] + Flat(chunks[1..])
  }

  datatype Filling = Filled | Dropped | Ended

  /** Reads until `needed` bytes are buffered; the future is dropped once `budget` chunks are spent. */
  function Fill(s: Recv, needed: nat, budget: nat): (Recv, nat, Filling)
    decreases budget
  {
    if |s.buf| >= needed then (s, budget, Filled)
    else if budget == 0 then (s, 0, Dropped)
    else if s.chunks == [] || s.chunks[0] == [] then (s, budget, Ended)
    else Fill(Recv(s.buf + s.chunks[0], s.chunks[1..]), needed, budget - 1)
  }

  function ParseHeader(h: seq<byte>): Result<(nat, nat), NetError>
    requires |h| == HEADER
  {
    var len := FromLe32(h[0..4]);
    if 4 <= len <= MAX_CONTROL_FRAME then Ok((FromLe16(h[4..6]), len - 4)) else Err(BadLength)
  }

  function Ending(f: Filling): Outcome
    requires f != Filled
  {
    if f == Dropped then Cancelled else Failed(Closed)
  }

  function Receive(s: Recv, budget: nat): (Recv, Outcome) {
    var (s1, left, f1) := Fill(s, HEADER, budget);
    if f1 != Filled then (s1, Ending(f1))
    else if |s1.buf| < HEADER then (s1, Failed(BadLength))
    else match ParseHeader(s1.buf[..HEADER])
      case Err(e) => (s1, Failed(e))
      case Ok((msgType, n)) =>
        var (s2, _, f2) := Fill(s1, HEADER + n, left);
        if f2 != Filled || |s2.buf| < HEADER + n then (s2, if f2 == Filled then Failed(BadLength) else Ending(f2))
        else (Recv(s2.buf[HEADER + n..], s2.chunks), Received(msgType, s2.buf[HEADER..HEADER + n]))
  }

  class RecvState {
    var buf: seq<byte>
    var chunks: seq<seq<byte>>

    ghost function Now(): Recv
      reads this
    {
      Recv(buf, chunks)
    }

    constructor (seed: seq<byte>, chunks: seq<seq<byte>>)
      ensures Now() == Recv(seed, chunks)
    {
      buf, this.chunks := seed, chunks;
    }

    method FillTo(needed: nat, budget: nat) returns (left: nat, f: Filling)
      modifies this
      ensures (Now(), left, f) == Fill(old(Now()), needed, budget)
      ensures f == Filled ==> |buf| >= needed
    {
      left := budget;
      while |buf| < needed
        invariant Fill(Now(), needed, left) == Fill(old(Now()), needed, budget)
        decreases left
      {
        if left == 0 { return 0, Dropped; }
        if chunks == [] || chunks[0] == [] { return left, Ended; }
        buf := buf + chunks[0];
        chunks := chunks[1..];
        left := left - 1;
      }
      f := Filled;
    }

    method RecvFrame(budget: nat) returns (r: Outcome)
      modifies this
      ensures (Now(), r) == Receive(old(Now()), budget)
    {
      var left, f := FillTo(HEADER, budget);
      if f != Filled { return Ending(f); }
      var parsed := ParseHeader(buf[..HEADER]);
      if parsed.Err? { return Failed(parsed.error); }
      var (msgType, n) := parsed.value;
      left, f := FillTo(HEADER + n, left);
      if f != Filled { return Ending(f); }
      r := Received(msgType, buf[HEADER..HEADER + n]);
      buf := buf[HEADER + n..];
    }
  }

  // ---- Nothing is lost ---------------------------------------------------------------------------

  lemma {:induction false} FillKeeps(s: Recv, needed: nat, budget: nat)
    ensures var (s', left, f) := Fill(s, needed, budget);
            && s'.Content() == s.Content() && left <= budget
            && |s'.chunks| + budget == |s.chunks| + left
            && (s.Open() ==> s'.Open())
            && (f == Filled ==> |s'.buf| >= needed)
            && (f == Dropped ==> left == 0 && |s'.buf| < needed)
            && (f == Ended && s.Open() ==> s'.chunks == [] && |s'.buf| < needed)
    decreases budget
  {
    if |s.buf| < needed && budget > 0 && s.chunks != [] && s.chunks[0] != [] {
      var s1 := Recv(s.buf + s.chunks[0], s.chunks[1..]);
      assert s1.Content() == s.Content();
      FillKeeps(s1, needed, budget - 1);
    }
  }

  function Encoded(fs: seq<Frame>): seq<byte>
    requires AllFit(fs)
  {
    if fs == [] then [] else Bytes(fs[0]) + Encoded(fs[1..])
  }

  predicate AllFit(fs: seq<Frame>) { forall i :: 0 <= i < |fs| ==> fs[i].Fits(MAX_CONTROL_FRAME) }

  lemma {:induction false} HeaderOf(f: Frame, rest: seq<byte>)
    requires f.Fits(MAX_CONTROL_FRAME)
    ensures |Bytes(f)| >= HEADER
    ensures ParseHeader((Bytes(f) + rest)[..HEADER]) == Ok((f.msgType, |f.payload|))
  {
    BytesParts(f, rest);
    var s := Bytes(f) + rest;
    var h := s[..HEADER];
    assert h[0..4] == s[..4] && h[4..6] == s[4..6];
    LeRoundTrip(f.Len());
    LeRoundTrip(f.msgType);
  }

  /** A header buffered from a stream of encoded frames is the first frame's. */
  lemma {:induction false} HeaderIs(s: Recv, fs: seq<Frame>)
    requires AllFit(fs) && s.Content() == Encoded(fs) && |s.buf| >= HEADER
    ensures fs != [] && ParseHeader(s.buf[..HEADER]) == Ok((fs[0].msgType, |fs[0].payload|))
  {
    assert |s.Content()| >= HEADER;
    HeaderOf(fs[0], Encoded(fs[1..]));
    assert s.buf[..HEADER] == s.Content()[..HEADER];
  }

  /** A header is accepted exactly if its length field is that of a control frame. */
  lemma {:induction false} HeaderIff(h: seq<byte>)
    requires |h| == 8
    ensures var len := h[0] as nat + 256 * h[1] as nat + 65536 * h[2] as nat + 16777216 * h[3] as nat;
            ParseHeader(h) ==
              if 4 <= len <= 262144 then Ok((h[4] as nat + 256 * h[5] as nat, len - 4)) else Err(BadLength)
  {
  }

  lemma {:induction false} PayloadIs(s: Recv, fs: seq<Frame>)
    requires AllFit(fs) && fs != [] && s.Content() == Encoded(fs) && |s.buf| >= HEADER + |fs[0].payload|
    ensures s.buf[HEADER..HEADER + |fs[0].payload|] == fs[0].payload
    ensures Recv(s.buf[HEADER + |fs[0].payload|..], s.chunks).Content() == Encoded(fs[1..])
  {
    var f, n := fs[0], HEADER + |fs[0].payload|;
    BytesParts(f, Encoded(fs[1..]));
    assert s.buf[HEADER..n] == s.Content()[HEADER..n];
    assert s.buf[n..] + Flat(s.chunks) == s.Content()[n..];
  }

  /** Once the header is buffered the payload follows, unless the attempt is cancelled first. */
  lemma {:induction false} AfterHeader(s: Recv, budget: nat, fs: seq<Frame>)
    requires AllFit(fs) && fs != [] && s.Open() && s.Content() == Encoded(fs)
    ensures var n := HEADER + |fs[0].payload|;
            var (s', left, f) := Fill(s, n, budget);
            && s'.Open() && s'.Content() == Encoded(fs) && f != Ended
            && (f == Filled ==> |s'.buf| >= n && s'.buf[HEADER..n] == fs[0].payload
                                && Recv(s'.buf[n..], s'.chunks).Content() == Encoded(fs[1..]))
            && (budget >= |s.chunks| ==> f == Filled)
  {
    var n := HEADER + |fs[0].payload|;
    FillKeeps(s, n, budget);
    var (s', left, f) := Fill(s, n, budget);
    BytesParts(fs[0], Encoded(fs[1..]));
    if f == Filled { PayloadIs(s', fs); }
  }

  /** What an attempt on a stream of encoded frames may end with. */
  ghost predicate Attempted(s: Recv, budget: nat, fs: seq<Frame>, s': Recv, r: Outcome)
    requires AllFit(fs)
  {
    && s'.Open()
    && (r.Received? ==>
          fs != [] && r == Received(fs[0].msgType, fs[0].payload) && s'.Content() == Encoded(fs[1..]))
    && (!r.Received? ==> s'.Content() == Encoded(fs))
    && (r.Failed? ==> r == Failed(Closed) && fs == [])
    && (fs != [] && budget >= |s.chunks| ==> r.Received?)
  }

  lemma {:induction false} NoHeaderYet(s: Recv, budget: nat, fs: seq<Frame>)
    requires AllFit(fs) && s.Open() && s.Content() == Encoded(fs) && Fill(s, HEADER, budget).2 != Filled
    ensures Attempted(s, budget, fs, Receive(s, budget).0, Receive(s, budget).1)
  {
    FillKeeps(s, HEADER, budget);
    if fs != [] { BytesParts(fs[0], Encoded(fs[1..])); }
  }

  lemma {:induction false} HeaderRead(s: Recv, budget: nat, fs: seq<Frame>)
    requires AllFit(fs) && s.Open() && s.Content() == Encoded(fs) && Fill(s, HEADER, budget).2 == Filled
    ensures Attempted(s, budget, fs, Receive(s, budget).0, Receive(s, budget).1)
  {
    var (s1, left, f1) := Fill(s, HEADER, budget);
    FillKeeps(s, HEADER, budget);
    HeaderIs(s1, fs);
    AfterHeader(s1, left, fs);
  }

  /** One attempt on a stream of encoded frames: the next frame, or cancelled with every byte kept, or closed
      after the last. Given enough chunks it is the next frame. */
  lemma {:induction false} OneAttempt(s: Recv, budget: nat, fs: seq<Frame>)
    requires AllFit(fs) && s.Open() && s.Content() == Encoded(fs)
    ensures Attempted(s, budget, fs, Receive(s, budget).0, Receive(s, budget).1)
  {
    if Fill(s, HEADER, budget).2 == Filled { HeaderRead(s, budget, fs); } else { NoHeaderYet(s, budget, fs); }
  }

  /** An attempt that may read to the end: too few bytes for a header, or for the payload it announces, is a closed
      stream; a header with a bad length is an error; and no byte is lost either way. */
  lemma {:induction false} FailsIff(s: Recv, budget: nat)
    requires s.Open() && budget > |s.chunks|
    ensures var (c, (s', r)) := (s.Content(), Receive(s, budget));
            && (|c| < HEADER ==> r == Failed(Closed) && s'.Content() == c)
            && (|c| >= HEADER && ParseHeader(c[..HEADER]).Err? ==> r == Failed(BadLength) && s'.Content() == c)
            && (|c| >= HEADER && ParseHeader(c[..HEADER]).Ok? ==>
                  if |c| < HEADER + ParseHeader(c[..HEADER]).value.1 then r == Failed(Closed) && s'.Content() == c
                  else r.Received?)
  {
    FillKeeps(s, HEADER, budget);
    var (s1, left, f1) := Fill(s, HEADER, budget);
    if f1 == Filled {
      assert s1.buf[..HEADER] == s1.Content()[..HEADER];
      if ParseHeader(s1.buf[..HEADER]).Ok? {
        FillKeeps(s1, HEADER + ParseHeader(s1.buf[..HEADER]).value.1, left);
      }
    }
  }

  /** Attempts with the given budgets, one after another. */
  function Attempts(s: Recv, budgets: seq<nat>): (Recv, seq<Outcome>)
    decreases |budgets|
  {
    if budgets == [] then (s, [])
    else
      var (s1, r) := Receive(s, budgets[0]);
      var (s2, rs) := Attempts(s1, budgets[1..]);
      (s2, [r] + rs)
  }

  /** The frames among the outcomes, in order. */
  function Frames(rs: seq<Outcome>): seq<(nat, seq<byte>)> {
    if rs == [] then []
    else (if rs[0].Received? then [(rs[0].msgType, rs[0].payload)] else []) + Frames(rs[1..])
  }

  function Pairs(fs: seq<Frame>): seq<(nat, seq<byte>)> {
    seq(|fs|, i requires 0 <= i < |fs| => (fs[i].msgType, fs[i].payload))
  }

  /** The attempts after the first, and the frames they add to it. */
  lemma {:induction false} FirstAttempt(s: Recv, budgets: seq<nat>)
    requires budgets != []
    ensures var (s1, r) := Receive(s, budgets[0]);
            var (s2, rs) := Attempts(s1, budgets[1..]);
            && Attempts(s, budgets).0 == s2
            && Frames(Attempts(s, budgets).1) == (if r.Received? then [(r.msgType, r.payload)] else []) + Frames(rs)
  {
    var (s1, r) := Receive(s, budgets[0]);
    assert Attempts(s, budgets).1[1..] == Attempts(s1, budgets[1..]).1;
  }

  lemma {:induction false} OneMore(fs: seq<Frame>, m: nat)
    requires m < |fs|
    ensures fs[1..][m..] == fs[m + 1..]
    ensures Pairs(fs[..m + 1]) == [(fs[0].msgType, fs[0].payload)] + Pairs(fs[1..][..m])
  {
    assert fs[..m + 1][1..] == fs[1..][..m];
  }

  /** For every list of frames, every split of their bytes into reads and every pattern of cancellations, the n
      frames received are exactly the first n in order, and what is left is exactly the rest. */
  lemma {:induction false} FramesInOrder(s: Recv, budgets: seq<nat>, fs: seq<Frame>)
    requires AllFit(fs) && s.Open() && s.Content() == Encoded(fs)
    ensures var (s', rs) := Attempts(s, budgets);
            var n := |Frames(rs)|;
            n <= |fs| && Frames(rs) == Pairs(fs[..n]) && s'.Content() == Encoded(fs[n..])
    decreases |budgets|
  {
    if budgets == [] {
      assert fs[0..] == fs;
    } else {
      OneAttempt(s, budgets[0], fs);
      FirstAttempt(s, budgets);
      var (s1, r) := Receive(s, budgets[0]);
      if r.Received? {
        FramesInOrder(s1, budgets[1..], fs[1..]);
        OneMore(fs, |Frames(Attempts(s1, budgets[1..]).1)|);
      } else {
        FramesInOrder(s1, budgets[1..], fs);
      }
    }
  }

  // ---- Stream priming -------------------------------------------------------------------------------

  /** Reads exactly one frame from a fresh stream: a priming frame is discarded, any other seeds the buffer. */
  function ConsumePrime(content: seq<byte>): Result<(seq<byte>, seq<byte>), NetError> {
    if |content| < HEADER then Err(Closed)
    else match ParseHeader(content[..HEADER])
      case Err(e) => Err(e)
      case Ok((msgType, n)) =>
        if |content| < HEADER + n then Err(Closed)
        else if msgType == TYPE_STREAM_PRIME then Ok(([], content[HEADER + n..]))
        else Ok((content[..HEADER] + content[HEADER..HEADER + n], content[HEADER + n..]))
  }

  /** Priming fails on a bad header, and is closed exactly while the first frame is incomplete. */
  lemma {:induction false} PrimingFailsIff(content: seq<byte>)
    ensures ConsumePrime(content) == Err(BadLength) <==>
            |content| >= HEADER && ParseHeader(content[..HEADER]).Err?
    ensures ConsumePrime(content) == Err(Closed) <==>
            |content| < HEADER || (ParseHeader(content[..HEADER]).Ok?
                                   && |content| < HEADER + ParseHeader(content[..HEADER]).value.1)
  {
  }

  /** The seed and the rest of the stream hold every frame but a leading priming frame. */
  lemma {:induction false} PrimingLosesNothing(fs: seq<Frame>)
    requires AllFit(fs) && fs != []
    ensures ConsumePrime(Encoded(fs)).Ok?
    ensures var (seed, rest) := ConsumePrime(Encoded(fs)).value;
            seed + rest == Encoded(if fs[0].msgType == TYPE_STREAM_PRIME then fs[1..] else fs)
  {
    var s := Recv(Encoded(fs), []);
    BytesParts(fs[0], Encoded(fs[1..]));
    assert s.Content() == Encoded(fs) && s.buf[..HEADER] == Encoded(fs)[..HEADER];
    HeaderIs(s, fs);
    var n := HEADER + |fs[0].payload|;
    assert Encoded(fs)[..HEADER] + Encoded(fs)[HEADER..n] + Encoded(fs)[n..] == Encoded(fs);
  }
}
