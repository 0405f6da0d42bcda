/**
 The sizes the trace ring buffer counts with, in bytes.
 */
module RingSizes {
  // Event data on a page: a 4096 byte page less its 16 byte header.
  const BUF_PAGE_SIZE := 4080
  const RB_EVNT_MIN_SIZE := 8
}
