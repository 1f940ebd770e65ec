/** Bytes and the little-endian integers the records are made of. */
module Bytes {
  type byte = x: int | 0 <= x < 256

  function Pow256(n: nat): nat { if n == 0 then 1 else 256 * Pow256(n - 1) }

  /** The n low bytes of v, least significant first, as a store of an n-byte integer. */
  function LE(v: nat, n: nat): (s: seq<byte>)
    ensures |s| == n
  {
    if n == 0 then [] else [v % 256] + LE(v / 256, n - 1)
  }

  function FromLE(s: seq<byte>): (v: nat)
  {
    if s == [] then 0 else s[0] + 256 * FromLE(s[1..])
  }

  lemma {:induction false} LERoundTrip(v: nat, n: nat)
    requires v < Pow256(n)
    ensures FromLE(LE(v, n)) == v
  {
    if n > 0 {
      LERoundTrip(v / 256, n - 1);
      assert LE(v, n)[1..] == LE(v / 256, n - 1);
    }
  }

  lemma Widths()
    ensures Pow256(1) == 256 && Pow256(2) == 0x1_0000 && Pow256(4) == 0x1_0000_0000
    ensures Pow256(8) == 0x1_0000_0000_0000_0000
  {
    assert Pow256(3) == 256 * Pow256(2);
    assert Pow256(6) == 256 * (256 * Pow256(4));
    assert Pow256(8) == 256 * (256 * Pow256(6));
  }

  /** `mem` with `bs` written at `off`. */
  function Splice(mem: seq<byte>, off: nat, bs: seq<byte>): (r: seq<byte>)
    requires off + |bs| <= |mem|
    ensures |r| == |mem|
  {
    mem[..off] + bs + mem[off + |bs|..]
  }

  predicate Stores(mem: seq<byte>, off: nat, bs: seq<byte>, mem': seq<byte>) {
    off + |bs| <= |mem| && mem' == Splice(mem, off, bs)
  }

  lemma SpliceTwice(mem: seq<byte>, off: nat, a: seq<byte>, b: seq<byte>)
    requires off + |a| + |b| <= |mem|
    ensures Splice(Splice(mem, off, a), off + |a|, b) == Splice(mem, off, a + b)
  {
  }

  lemma SpliceReads(mem: seq<byte>, off: nat, bs: seq<byte>)
    requires off + |bs| <= |mem|
    ensures Splice(mem, off, bs)[off..off + |bs|] == bs
  {
  }

  /** Bytes outside the written range stay. */
  lemma SpliceElsewhere(mem: seq<byte>, off: nat, bs: seq<byte>, lo: nat, hi: nat)
    requires off + |bs| <= |mem| && lo <= hi <= |mem| && (hi <= off || off + |bs| <= lo)
    ensures Splice(mem, off, bs)[lo..hi] == mem[lo..hi]
  {
  }

  /** The bytes up to the end of the written range. */
  lemma SpliceUpto(mem: seq<byte>, off: nat, bs: seq<byte>)
    requires off + |bs| <= |mem|
    ensures Splice(mem, off, bs)[..off + |bs|] == mem[..off] + bs
  {
  }

  lemma SplicePrefix(mem: seq<byte>, bs: seq<byte>)
    requires |bs| <= |mem|
    ensures Splice(mem, 0, bs)[..|bs|] == bs
  {
  }

  lemma CutOut(x: seq<byte>, pre: seq<byte>, mid: seq<byte>, rest: seq<byte>)
    requires x == pre + (mid + rest)
    ensures x == (pre + mid) + rest
    ensures x[|pre|..|pre + mid|] == mid && |pre + mid| == |pre| + |mid|
    ensures x[|pre + mid|..] == rest
  {
  }

  /** memcpy. */
  method CopyInto(a: array<byte>, at: nat, bs: seq<byte>)
    requires at + |bs| <= a.Length
    modifies a
    ensures Stores(old(a[..]), at, bs, a[..])
  {
    var i := 0;
    while i < |bs|
      invariant 0 <= i <= |bs|
      invariant forall x | 0 <= x < a.Length :: a[x] == if at <= x < at + i then bs[x - at] else old(a[x])
    {
      a[at + i] := bs[i];
      i := i + 1;
    }
  }

  // ---------------------------------------------------------------- packed headers

  function Total(ws: seq<nat>): nat { if ws == [] then 0 else ws[0] + Total(ws[1..]) }

  /** The fields `vs` stored one after another with the byte widths `ws`. */
  function Pack(vs: seq<nat>, ws: seq<nat>): (s: seq<byte>)
    requires |vs| == |ws|
    ensures |s| == Total(ws)
  {
    if ws == [] then [] else LE(vs[0], ws[0]) + Pack(vs[1..], ws[1..])
  }

  function Unpack(s: seq<byte>, ws: seq<nat>): (vs: seq<nat>)
    requires Total(ws) <= |s|
    ensures |vs| == |ws|
  {
    if ws == [] then [] else [FromLE(s[..ws[0]])] + Unpack(s[ws[0]..], ws[1..])
  }

  lemma {:induction false} PackRoundTrip(vs: seq<nat>, ws: seq<nat>, rest: seq<byte>)
    requires |vs| == |ws| && forall i | 0 <= i < |vs| :: vs[i] < Pow256(ws[i])
    ensures Unpack(Pack(vs, ws) + rest, ws) == vs
  {
    if ws != [] {
      LERoundTrip(vs[0], ws[0]);
      var s := Pack(vs, ws) + rest;
      assert s[..ws[0]] == LE(vs[0], ws[0]);
      assert s[ws[0]..] == Pack(vs[1..], ws[1..]) + rest;
      PackRoundTrip(vs[1..], ws[1..], rest);
    }
  }

  /** Rounding up to the 8-byte record alignment. */
  function Align8(n: nat): (r: nat)
    ensures n <= r < n + 8 && r % 8 == 0
  {
    (n + 7) / 8 * 8
  }
}
