/** The wire messages, limits and errors of the file-transfer engine. */
module FileTypes {
  import opened Common

  type Digest = seq<byte>

  const MAX_IN_FLIGHT_PER_FILE: nat := 8 * 1024 * 1024
  const DEFAULT_CHUNK_SIZE: nat := 256 * 1024
  const MAX_CHUNK_SIZE: nat := 1024 * 1024
  const DIGEST_LEN: nat := 32

  datatype FileEntry = FileEntry(name: string, size: nat, sha256: Option<seq<byte>>)
  datatype FileOffer = FileOffer(transferId: nat, files: seq<FileEntry>)
  datatype ResumePoint = ResumePoint(fileIndex: nat, offset: nat)
  datatype FileAccept = FileAccept(transferId: nat, resume: seq<ResumePoint>)
  datatype FileChunk = FileChunk(transferId: nat, fileIndex: nat, offset: nat, data: seq<byte>)
  datatype FileAck = FileAck(transferId: nat, fileIndex: nat, ackedThrough: nat)
  datatype FileDone = FileDone(transferId: nat, ok: bool)

  /** A reply of the receiver; the free-text reason of a reject is not modelled. */
  datatype Outbound =
    | Accept(accept: FileAccept)
    | Reject(transferId: nat)
    | Ack(ack: FileAck)
    | Done(done: FileDone)

  datatype FileError =
    | UnknownTransfer(id: nat)
    | UnknownFileIndex(index: nat)
    | ChunkTooLarge(len: nat)
    | OffsetOutOfRange(fileIndex: nat, offset: nat)
    | Protocol
    | Sink
}
