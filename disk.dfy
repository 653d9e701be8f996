/** The local file as the uploader sees it: positional reads only, through
    Go's `os.File.ReadAt`. The file's bytes and the reads on which the
    storage medium reports an I/O error are inputs of the model. */
module Disk {
  import opened Wrappers

  newtype byte = b: int | 0 <= b < 256

  /** An open file: its content, and the reads (offset, length) on which the
      medium fails. */
  datatype File = File(content: seq<byte>, failingReads: set<(int, int)>)

  datatype ReadError = NegativeOffset | EndOfFile | IOError

  /** `f.ReadAt(buf, off)` with `len(buf) == n`: a negative offset is refused;
      an empty buffer is filled at once; otherwise the n bytes at `off` are
      returned, or an end-of-file error when fewer remain, or an I/O error when
      the medium fails on that read. */
  function ReadAt(f: File, off: int, n: int): (r: Result<seq<byte>, ReadError>)
    requires n >= 0
    ensures r.Success? <==> 0 <= off && (n == 0 || (off + n <= |f.content| && (off, n) !in f.failingReads))
    ensures r.Success? ==> |r.value| == n
    ensures r.Success? && n > 0 ==> r.value == f.content[off..off + n]
    ensures off < 0 ==> r == Failure(NegativeOffset)
    ensures 0 <= off && 0 < n && |f.content| < off + n ==> r == Failure(EndOfFile)
  {
    if off < 0 then Failure(NegativeOffset)
    else if n == 0 then Success([])
    else if off + n > |f.content| then Failure(EndOfFile)
    else if (off, n) in f.failingReads then Failure(IOError)
    else Success(f.content[off..off + n])
  }
}
