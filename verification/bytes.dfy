/**
  The byte cursor the container walker reads through: a finite byte source,
  big-endian reads that yield 0 for every byte at or past the end (the cursor
  then stays at the end), and an absolute seek that succeeds only on a
  seekable source and only inside [0, size].
 */
module Bytes {

  type byte = bv8

  const TWO32: int := 0x1_0000_0000
  const TWO63: int := 0x8000_0000_0000_0000
  const TWO64: int := 0x1_0000_0000_0000_0000

  /** The byte source: its contents and whether it can be repositioned. */
  datatype Source = Source(bytes: seq<byte>, seekable: bool)

  /** The byte at position p, or 0 outside the source. */
  function At(src: seq<byte>, p: int): (b: nat)
    ensures b < 256
    ensures 0 <= p < |src| ==> b == src[p] as nat
  {
    if 0 <= p < |src| then src[p] as nat else 0
  }

  function Pow256(n: nat): (r: nat)
    ensures r >= 1
  {
    if n == 0 then 1 else 256 * Pow256(n - 1)
  }

  /** The n bytes starting at p read as one big-endian unsigned number. */
  function BigEndian(src: seq<byte>, p: int, n: nat): (v: nat)
    ensures v < Pow256(n)
  {
    if n == 0 then 0 else BigEndian(src, p, n - 1) * 256 + At(src, p + n - 1)
  }

  /** Where the cursor stands after consuming n bytes from p: it never passes the end. */
  function Advance(src: seq<byte>, p: int, n: nat): (q: int)
    requires 0 <= p <= |src|
    ensures p <= q <= |src| && q - p <= n
    ensures q == p + n || q == |src|
    ensures p < |src| && n > 0 ==> p < q
  {
    if p + n <= |src| then p + n else |src|
  }

  /** A read that starts at or past the end of the source yields 0. */
  lemma {:induction false} BigEndianPastEnd(src: seq<byte>, p: int, n: nat)
    requires p >= |src|
    ensures BigEndian(src, p, n) == 0
  {
    if n > 0 {
      BigEndianPastEnd(src, p, n - 1);
    }
  }

  /** A nonzero value can only come from a read that starts inside the source. */
  lemma NonZeroReadStartsInside(src: seq<byte>, p: int, n: nat)
    requires BigEndian(src, p, n) != 0
    ensures p < |src|
  {
    if p >= |src| {
      BigEndianPastEnd(src, p, n);
    }
  }

  /** The outcome of an absolute seek: the value avio_seek returns and the new position. */
  datatype SeekResult = SeekResult(rc: int, pos: int)

  /**
    Seeking returns the target position on success; on failure it returns a
    negative error code and leaves the cursor where it was.
   */
  function Seek(s: Source, cur: int, target: int): (r: SeekResult)
    ensures r.rc >= 0 <==> s.seekable && 0 <= target <= |s.bytes|
    ensures r.rc >= 0 ==> r.rc == target && r.pos == target
    ensures r.rc < 0 ==> r.pos == cur
  {
    if s.seekable && 0 <= target <= |s.bytes| then SeekResult(target, target) else SeekResult(-1, cur)
  }

  /** Conversion of an unsigned 64-bit value to int64_t (two's complement). */
  function Signed64(u: int): (v: int)
    requires 0 <= u < TWO64
    ensures -TWO63 <= v < TWO63
    ensures (v - u) % TWO64 == 0
  {
    if u < TWO63 then u else u - TWO64
  }
}
