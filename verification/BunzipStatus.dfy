// The bzip2 decoder's return values.
module BunzipStatus {
  const RETVAL_OK := 0
  const RETVAL_LAST_BLOCK := -1
  const RETVAL_NOT_BZIP_DATA := -2
  const RETVAL_DATA_ERROR := -5
  const RETVAL_OBSOLETE_INPUT := -7
}
