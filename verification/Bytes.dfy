/** Bytes and little-endian integers, shared by the wire formats. */
module Bytes {

  type byte = x: int | 0 <= x < 256

  /** The number of values an integer of 1, 2 or 4 bytes can take. */
  function Limit(w: nat): (p: nat)
    ensures p >= 256
  {
    if w == 1 then 0x100 else if w == 2 then 0x1_0000 else 0x1_0000_0000
  }

  /** The low byte, or the low two bytes, of n, least significant first. */
  function LE(n: nat, w: nat): (s: seq<byte>)
    ensures |s| == if w == 1 then 1 else 2
  {
    if w == 1 then [n % 256] else [n % 256, n / 256 % 256]
  }

  function FromLE(s: seq<byte>): (n: nat)
    requires 1 <= |s| <= 2
    ensures n < Limit(|s|)
  {
    if |s| == 1 then s[0] else var low: int, high: int := s[0], s[1]; low + 256 * high
  }

  lemma {:induction false} LEInverse(n: nat, w: nat)
    requires w == 1 || w == 2
    ensures FromLE(LE(n, w)) == n % Limit(w)
  {
    var x := n / 256;
    var y := x / 256;
    assert n == 256 * x + n % 256 && x == 256 * y + x % 256;
    LowTwo(n, y, 256 * (x % 256) + n % 256);
  }

  lemma {:induction false} LowTwo(n: nat, q: nat, r: nat)
    requires n == 65536 * q + r && r < 65536
    ensures n % 65536 == r
  {
  }

  /** The bytes bs stand in buf at position pos. */
  ghost predicate At(buf: seq<byte>, pos: nat, bs: seq<byte>) {
    pos + |bs| <= |buf| && buf[pos..pos + |bs|] == bs
  }

  lemma {:induction false} AtConcat(buf: seq<byte>, pos: nat, a: seq<byte>, b: seq<byte>)
    requires At(buf, pos, a + b)
    ensures At(buf, pos, a) && At(buf, pos + |a|, b)
  {
    assert buf[pos..pos + |a|] == (a + b)[..|a|] == a;
    assert buf[pos + |a|..pos + |a| + |b|] == (a + b)[|a|..] == b;
  }
}
