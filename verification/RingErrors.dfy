module RingErrors {
  /** Why a read of the shared-memory ring returns no sample. */
  datatype ReadError = NoData | Overwritten | NotYetWritten | BufferTooSmall
}
