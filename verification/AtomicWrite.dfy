/**
 The outcome of an atomic file write (internal/securefile/file.go). The rename
 precedes the directory sync, so a write that fails, or during which the process
 dies, may already have replaced the file.
 */
module AtomicWrite {

  datatype Written = Synced | WriteFailed | WriteCrashed
}
