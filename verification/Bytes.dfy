/** Byte strings as the host file and the tables hold them: big-endian integers
    (be64toh/htobe64) and a file that grows when it is written past its end. */
module Bytes {
  import opened Common

  type byte = b: int | 0 <= b < 256

  function Pow256(n: nat): (p: nat)
    ensures p >= 1
  {
    if n == 0 then 1 else 256 * Pow256(n - 1)
  }

  /** The integer a run of bytes denotes, most significant byte first. */
  function FromBE(s: seq<byte>): (v: nat)
    ensures v < Pow256(|s|)
  {
    if s == [] then 0 else FromBE(s[..|s| - 1]) * 256 + s[|s| - 1]
  }

  /** The n low-order bytes of v, most significant byte first. */
  function ToBE(v: nat, n: nat): (s: seq<byte>)
    ensures |s| == n
  {
    if n == 0 then [] else ToBE(v / 256, n - 1) + [v % 256]
  }

  lemma {:induction false} ToBERoundTrip(v: nat, n: nat)
    requires v < Pow256(n)
    ensures FromBE(ToBE(v, n)) == v
  {
    if n > 0 {
      ToBERoundTrip(v / 256, n - 1);
      assert ToBE(v, n)[..n - 1] == ToBE(v / 256, n - 1);
    }
  }

  /** Each byte of a word has the weight of its place, the first one the highest. */
  lemma {:induction false} BytePlaces(v: nat, n: nat, k: nat)
    requires k < n
    ensures ToBE(v, n)[k] == v / Pow256(n - 1 - k) % 256
  {
    if k < n - 1 {
      BytePlaces(v / 256, n - 1, k);
      DivTwice(v, 256, Pow256(n - 2 - k));
    }
  }

  /** The 64-bit word stored at a file offset; 0 beyond the end of the file. */
  function U64(f: seq<byte>, off: nat): (v: nat)
    ensures v < TWO_64
  {
    if off + 8 <= |f| then
      assert Pow256(8) == TWO_64 by { assert Pow256(4) == 0x1_0000_0000; }
      FromBE(f[off..off + 8])
    else 0
  }

  /** pwrite(2) in full: replaces [off, off+|data|), zero-filling any gap after the old end. */
  function Pwrite(f: seq<byte>, off: nat, data: seq<byte>): (r: seq<byte>)
    ensures |r| == Max(|f|, off + |data|)
    ensures forall k :: 0 <= k < |r| ==>
              r[k] == (if off <= k < off + |data| then data[k - off] else if k < |f| then f[k] else 0)
  {
    seq(Max(|f|, off + |data|),
        k requires 0 <= k < Max(|f|, off + |data|) =>
          if off <= k < off + |data| then data[k - off] else if k < |f| then f[k] else 0)
  }

  lemma PwriteReads(f: seq<byte>, off: nat, data: seq<byte>)
    ensures off + |data| <= |Pwrite(f, off, data)|
    ensures Pwrite(f, off, data)[off..off + |data|] == data
  {
  }

  function Zeros(n: nat): (z: seq<byte>)
    ensures |z| == n && forall k :: 0 <= k < n ==> z[k] == 0
  {
    seq(n, _ => 0)
  }

  lemma {:induction false} ZerosDenoteZero(z: seq<byte>)
    requires forall k :: 0 <= k < |z| ==> z[k] == 0
    ensures FromBE(z) == 0
  {
    if z != [] {
      ZerosDenoteZero(z[..|z| - 1]);
    }
  }

  lemma U64OfZeros(f: seq<byte>, off: nat)
    requires forall k :: off <= k < off + 8 && k < |f| ==> f[k] == 0
    ensures U64(f, off) == 0
  {
    if off + 8 <= |f| {
      ZerosDenoteZero(f[off..off + 8]);
    }
  }

  /** A word depends only on its own eight bytes. */
  lemma U64Frame(f: seq<byte>, g: seq<byte>, off: nat)
    requires off + 8 <= |f| && off + 8 <= |g|
    requires forall k :: off <= k < off + 8 ==> f[k] == g[k]
    ensures U64(f, off) == U64(g, off)
  {
    assert f[off..off + 8] == g[off..off + 8];
  }

  /** Writing a word and reading it back. */
  lemma U64Written(f: seq<byte>, off: nat, v: nat)
    requires v < TWO_64
    ensures U64(Pwrite(f, off, ToBE(v, 8)), off) == v
  {
    var g := Pwrite(f, off, ToBE(v, 8));
    assert g[off..off + 8] == ToBE(v, 8);
    assert Pow256(8) == TWO_64 by { assert Pow256(4) == 0x1_0000_0000; }
    ToBERoundTrip(v, 8);
  }
}
