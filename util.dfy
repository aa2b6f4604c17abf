/** Byte-slice helpers: Go's built-in `copy`, `dup` (util.go) and the
    allocation of a fresh slice from a value. A Go slice `b[:n]` of a buffer is
    modelled as the buffer `b` together with the length `n`. */
module Util {
  import opened Types

  /** `copy(dst, src)`: copies as many bytes as both have room for, from the
      front, and returns that count; the rest of `dst` is untouched. */
  method Copy(dst: array<byte>, src: Bytes) returns (n: nat)
    modifies dst
    ensures n == Min(dst.Length, |src|)
    ensures dst[..n] == src[..n]
    ensures dst[n..] == old(dst[n..])
  {
    n := Min(dst.Length, |src|);
    var i := 0;
    while i < n
      invariant 0 <= i <= n
      invariant forall k | 0 <= k < i :: dst[k] == src[k]
      invariant forall k | i <= k < dst.Length :: dst[k] == old(dst[k])
    {
      dst[i] := src[i];
      i := i + 1;
    }
  }

  /** `dup(b[:n])`: a new buffer of the same length holding the same bytes.
      Being fresh, it shares nothing with `b`, so later writes to `b` do not
      reach it. */
  method Dup(b: array<byte>, n: nat) returns (r: array<byte>)
    requires n <= b.Length
    ensures fresh(r)
    ensures r.Length == n
    ensures r[..] == b[..n]
  {
    r := new byte[n];
    var copied := Copy(r, b[..n]);
  }

  /** A freshly allocated slice holding `v`, as `[]byte(s)` or a marshalled value is. */
  method Alloc(v: Bytes) returns (a: array<byte>)
    ensures fresh(a)
    ensures a[..] == v
  {
    a := new byte[|v|](i requires 0 <= i < |v| => v[i]);
  }
}
