/** Reassembly of one pulled representation. */
module ClipReassembly {
  import opened Common
  import opened ClipCanonical

  type Hash = seq<byte>
  type Sha = seq<byte> -> Hash

  const MAX_DATA_CHUNK: nat := 1024 * 1024

  datatype ClipboardError =
    | ChunkTooLarge(len: nat)
    | OffsetOutOfRange(expected: nat, got: nat)
    | HashMismatch
    | UnknownHash
    | Protocol

  datatype Reasm = Reasm(format: ClipFormat, hash: Hash, size: nat, buf: seq<byte>, done: bool)

  function NewReasm(format: ClipFormat, hash: Hash, size: nat): Reasm { Reasm(format, hash, size, [], false) }

  type Pushed = Result<Option<seq<byte>>, ClipboardError>

  function Push(m: Reasm, offset: nat, data: seq<byte>, last: bool, sha: Sha): (Reasm, Pushed) {
    var end := offset + |data|;
    if m.done then (m, Err(Protocol))
    else if |data| > MAX_DATA_CHUNK then (m, Err(ChunkTooLarge(|data|)))
    else if offset != |m.buf| then (m, Err(OffsetOutOfRange(|m.buf|, offset)))
    else if end > U64_MAX then (m, Err(OffsetOutOfRange(|m.buf|, offset)))
    else if end > m.size then (m, Err(OffsetOutOfRange(m.size, end)))
    else
      var got := m.(buf := m.buf + data);
      if !last then (got, Ok(None))
      else if |got.buf| != m.size then (got.(done := true), Err(OffsetOutOfRange(m.size, |got.buf|)))
      else if sha(got.buf) != m.hash then (got.(done := true), Err(HashMismatch))
      else (got.(buf := [], done := true), Ok(Some(got.buf)))
  }

  class Reassembly {
    const format: ClipFormat
    const hash: Hash
    const size: nat
    var buf: seq<byte>
    var done: bool

    function View(): Reasm
      reads this
    {
      Reasm(format, hash, size, buf, done)
    }

    constructor (format: ClipFormat, hash: Hash, size: nat)
      ensures View() == NewReasm(format, hash, size)
    {
      this.format, this.hash, this.size, buf, done := format, hash, size, [], false;
    }

    /** The object of a pull as it stands in the table. */
    constructor Resume(m: Reasm)
      ensures View() == m
    {
      format, hash, size, buf, done := m.format, m.hash, m.size, m.buf, m.done;
    }

    method Receive(offset: nat, data: seq<byte>, last: bool, sha: Sha) returns (r: Pushed)
      modifies this
      ensures (View(), r) == Push(old(View()), offset, data, last, sha)
    {
      if done { return Err(Protocol); }
      if |data| > MAX_DATA_CHUNK { return Err(ChunkTooLarge(|data|)); }
      var committed := |buf|;
      if offset != committed { return Err(OffsetOutOfRange(committed, offset)); }
      var end := offset + |data|;
      if end > U64_MAX { return Err(OffsetOutOfRange(committed, offset)); }
      if end > size { return Err(OffsetOutOfRange(size, end)); }
      buf := buf + data;
      if !last { return Ok(None); }
      done := true;
      if |buf| != size { return Err(OffsetOutOfRange(size, |buf|)); }
      if sha(buf) != hash { return Err(HashMismatch); }
      r := Ok(Some(buf));
      buf := [];
    }
  }

  function Pushes(m: Reasm, cs: seq<(nat, seq<byte>, bool)>, sha: Sha): (Reasm, Pushed)
    requires cs != []
  {
    var c := cs[|cs| - 1];
    if |cs| == 1 then Push(m, c.0, c.1, c.2, sha)
    else Push(Pushes(m, cs[..|cs| - 1], sha).0, c.0, c.1, c.2, sha)
  }

  /** Whatever chunks arrive, bytes are only ever handed out when they are complete and hash to the offer,
      and what is buffered never exceeds the offered size. */
  lemma {:induction false} OnlyVerifiedBytes(format: ClipFormat, hash: Hash, size: nat,
                                            cs: seq<(nat, seq<byte>, bool)>, sha: Sha)
    requires cs != []
    ensures var (m, r) := Pushes(NewReasm(format, hash, size), cs, sha);
            && |m.buf| <= size && m.size == size && m.hash == hash
            && (r.Ok? && r.value.Some? ==> |r.value.value| == size && sha(r.value.value) == hash)
  {
    if |cs| > 1 { OnlyVerifiedBytes(format, hash, size, cs[..|cs| - 1], sha); }
  }
}
