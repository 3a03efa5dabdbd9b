/** The messages of a transfer, after decryption and decoding, and the records they carry. */
module Protocol {
  import opened Bytes

  const PROTOCOL_VERSION: Byte := 4
  const CHUNK_SIZE := 65536

  datatype Metadata = Metadata(filename: string, size: int, chunks: int, resumeOffset: int)

  datatype ResumeRequest = ResumeRequest(filename: string, offset: int, prefixHash: string)

  /**
   * A payload that does not parse as its record is None. `Other` stands for every type no receiver or sender reacts to.
   */
  datatype Message =
    | MetadataMsg(meta: Option<Metadata>)
    | Chunk(data: seq<Byte>)
    | Complete
    | Error
    | SessionEnd
    | Version(payload: seq<Byte>)
    | SDPOffer
    | SDPAnswer
    | ICECandidate
    | P2PReady
    | P2PFail
    | PeerJoin(payload: seq<Byte>)
    | ResumeMsg(request: Option<ResumeRequest>)
    | Other

  /** The version check, the same on both ends. */
  predicate SpeaksVersion(payload: seq<Byte>) {
    |payload| > 0 && payload[0] == PROTOCOL_VERSION
  }

  /** The messages of the transport negotiation. */
  predicate IsSignal(m: Message) {
    m.SDPOffer? || m.SDPAnswer? || m.ICECandidate? || m.P2PReady? || m.P2PFail?
  }
}
