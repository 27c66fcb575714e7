/** What the native calls have in common: the state of their reader, and what it reads. */
module CallReader {
  import opened Wire

  datatype ReaderState = FirstCall | Processing | Ended

  /** What parseByteBuffer makes of a response. */
  datatype Parsed = Message(data: Bytes) | Malformed
}
