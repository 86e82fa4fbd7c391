/** The two file operations the programs use. */
module Files {
  import opened Words

  /** `os.File.WriteAt`: a gap below the offset fills with zeros; a negative offset writes nothing. */
  function WriteAt(file: seq<byte>, off: int, p: seq<byte>): seq<byte> {
    if off < 0 || p == [] then
      file
    else
      seq(Max(|file|, off + |p|), i requires 0 <= i =>
        if off <= i < off + |p| then p[i - off] else if i < |file| then file[i] else 0)
  }

  /** `os.File.Truncate`: cuts the file or extends it with zeros. */
  function Truncate(file: seq<byte>, size: int): seq<byte> {
    if size < 0 then
      file
    else
      seq(size, i requires 0 <= i => if i < |file| then file[i] else 0)
  }

  /** After a write the file has the new bytes in their place, the old ones elsewhere, and zeros between. */
  lemma WriteAtIs(file: seq<byte>, off: nat, p: seq<byte>)
    requires p != []
    ensures var f, n, end := WriteAt(file, off, p), |file|, off + |p|;
            && |f| == Max(n, end) && f[off..end] == p
            && f[..Min(off, n)] == file[..Min(off, n)]
            && (n < off ==> f[n..off] == Zeros(off - n))
            && (end < n ==> f[end..] == file[end..])
  {
  }

  /** Truncating keeps the beginning and fills up with zeros; a negative size is refused. */
  lemma TruncateIs(file: seq<byte>, size: int)
    ensures size < 0 ==> Truncate(file, size) == file
    ensures 0 <= size <= |file| ==> Truncate(file, size) == file[..size]
    ensures size > |file| ==> Truncate(file, size) == file + Zeros(size - |file|)
  {
  }
}
