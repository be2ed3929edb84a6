/** Bytes and the C library block operations that the shell uses on its buffers. */
module Memory {
  import opened Types

  const NUL: byte := 0

  /** Position `pos` of a circular buffer, brought back in range by one subtraction. */
  function Wrap(pos: nat, size: nat): (r: nat)
    requires pos < 2 * size
  {
    if pos >= size then pos - size else pos
  }

  /** How many steps forward of `from` the position `to` lies in a circular buffer. */
  function Distance(from: nat, to: nat, size: nat): (d: nat)
    requires from < size && to < size
    ensures d < size && Wrap(from + d, size) == to
  {
    if to >= from then to - from else to + size - from
  }

  /** memcpy(dst + to, src + from, n) between two different arrays. */
  method CopyBytes(dst: array<byte>, to: nat, src: array<byte>, from: nat, n: nat)
    requires dst != src
    requires to + n <= dst.Length && from + n <= src.Length
    modifies dst
    ensures forall k | to <= k < to + n :: dst[k] == src[from + k - to]
    ensures forall k | 0 <= k < dst.Length && !(to <= k < to + n) :: dst[k] == old(dst[k])
  {
    var i := 0;
    while i < n
      invariant 0 <= i <= n
      invariant forall k | to <= k < to + i :: dst[k] == src[from + k - to]
      invariant forall k | 0 <= k < dst.Length && !(to <= k < to + i) :: dst[k] == old(dst[k])
    {
      dst[to + i] := src[from + i];
      i := i + 1;
    }
  }

  /** memset(dst, 0, length of dst). */
  method ClearBytes(dst: array<byte>)
    modifies dst
    ensures forall k | 0 <= k < dst.Length :: dst[k] == NUL
  {
    var i := 0;
    while i < dst.Length
      invariant 0 <= i <= dst.Length
      invariant forall k | 0 <= k < i :: dst[k] == NUL
    {
      dst[i] := NUL;
      i := i + 1;
    }
  }
}
