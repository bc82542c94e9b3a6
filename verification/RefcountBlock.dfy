/** The packed entries of a refcount block: 2^order bits each, sub-byte entries
    starting at the low end of a byte, wider ones big-endian. */
module RefcountBlock {
  import opened Bytes
  import opened Common

  /** Number of entries in a block of `size` bytes. */
  function Capacity(order: nat, size: nat): nat
    requires order <= 6
  {
    if order == 0 then size * 8 else if order == 1 then size * 4 else if order == 2 then size * 2
    else if order == 3 then size else if order == 4 then size / 2 else if order == 5 then size / 4
    else size / 8
  }

  /** The byte a sub-byte entry lies in. */
  function ByteOf(order: nat, i: nat): nat
    requires order < 3
  {
    if order == 0 then i / 8 else if order == 1 then i / 4 else i / 2
  }

  /** Its lowest bit in that byte. */
  function ShiftOf(order: nat, i: nat): nat
    requires order < 3
  {
    if order == 0 then i % 8 else if order == 1 then 2 * (i % 4) else 4 * (i % 2)
  }

  /** Bits per entry for the sub-byte orders. */
  function EntryBits(order: nat): nat
    requires order < 3
  {
    if order == 0 then 1 else if order == 1 then 2 else 4
  }

  /** Bytes per entry for the other orders. */
  function EntryBytes(order: nat): nat
    requires 3 <= order <= 6
  {
    if order == 3 then 1 else if order == 4 then 2 else if order == 5 then 4 else 8
  }

  /** One more than the largest value an entry holds: set_refcount asserts `value` is below it. */
  function Limit(order: nat): nat
    requires order <= 6
  {
    if order < 3 then Pow2(EntryBits(order)) else Pow256(EntryBytes(order))
  }

  // ---- bit fields, one bit at a time ----

  /** b & (2^width - 1) */
  function Low(b: nat, width: nat): nat {
    if width == 0 then 0 else 2 * Low(b / 2, width - 1) + b % 2
  }

  /** (b & ~(2^width - 1)) | v, for a v of `width` bits */
  function WithLow(b: nat, width: nat, v: nat): nat {
    if width == 0 then b else 2 * WithLow(b / 2, width - 1, v / 2) + v % 2
  }

  /** b >> n */
  function Drop(b: nat, n: nat): nat {
    if n == 0 then b else Drop(b / 2, n - 1)
  }

  /** (b >> shift) & (2^width - 1) */
  function Field(b: nat, shift: nat, width: nat): nat {
    Low(Drop(b, shift), width)
  }

  /** (b & ~((2^width - 1) << shift)) | (v << shift), for a v of `width` bits */
  function WithField(b: nat, shift: nat, width: nat, v: nat): nat {
    if shift == 0 then WithLow(b, width, v) else 2 * WithField(b / 2, shift - 1, width, v) + b % 2
  }

  lemma {:induction false} LowStored(b: nat, width: nat, v: nat, bits: nat)
    requires v < Pow2(width) && b < Pow2(bits) && width <= bits
    ensures WithLow(b, width, v) < Pow2(bits)
    ensures Low(WithLow(b, width, v), width) == v
  {
    if width > 0 { LowStored(b / 2, width - 1, v / 2, bits - 1); }
  }

  lemma {:induction false} LowReplaced(b: nat, width: nat, v: nat, n: nat)
    requires width <= n
    ensures Drop(WithLow(b, width, v), n) == Drop(b, n)
  {
    if width > 0 {
      LowReplaced(b / 2, width - 1, v / 2, n - 1);
      assert WithLow(b, width, v) / 2 == WithLow(b / 2, width - 1, v / 2);
    }
  }

  /** A stored field reads back and stays inside its byte. */
  lemma {:induction false} FieldStored(b: nat, shift: nat, width: nat, v: nat, bits: nat)
    requires v < Pow2(width) && b < Pow2(bits) && shift + width <= bits
    ensures WithField(b, shift, width, v) < Pow2(bits)
    ensures Field(WithField(b, shift, width, v), shift, width) == v
  {
    if shift == 0 {
      LowStored(b, width, v, bits);
    } else {
      FieldStored(b / 2, shift - 1, width, v, bits - 1);
      assert WithField(b, shift, width, v) / 2 == WithField(b / 2, shift - 1, width, v);
    }
  }

  /** Storing one field leaves every field that does not overlap it alone. */
  lemma {:induction false} FieldKept(b: nat, shift: nat, other: nat, width: nat, v: nat)
    requires shift + width <= other || other + width <= shift
    ensures Field(WithField(b, shift, width, v), other, width) == Field(b, other, width)
  {
    if shift == 0 {
      LowReplaced(b, width, v, other);
    } else if other == 0 {
      LowKept(b, shift, width, v, width);
    } else {
      FieldKept(b / 2, shift - 1, other - 1, width, v);
      assert WithField(b, shift, width, v) / 2 == WithField(b / 2, shift - 1, width, v);
    }
  }

  lemma {:induction false} LowKept(b: nat, shift: nat, width: nat, v: nat, n: nat)
    requires n <= shift
    ensures Low(WithField(b, shift, width, v), n) == Low(b, n)
  {
    if n > 0 {
      LowKept(b / 2, shift - 1, width, v, n - 1);
      assert WithField(b, shift, width, v) / 2 == WithField(b / 2, shift - 1, width, v);
    }
  }

  /** Byte offset of a wide entry in its block. */
  function Offset(order: nat, i: nat): nat
    requires 3 <= order <= 6
  {
    if order == 3 then i else if order == 4 then 2 * i else if order == 5 then 4 * i else 8 * i
  }

  /** get_refcount */
  function Get(order: nat, block: seq<byte>, i: nat): nat
    requires order <= 6 && i < Capacity(order, |block|)
  {
    if order < 3 then
      Field(block[ByteOf(order, i)], ShiftOf(order, i), EntryBits(order))
    else
      FromBE(block[Offset(order, i)..Offset(order, i) + EntryBytes(order)])
  }

  /** What set_refcount leaves in the block. */
  function Set(order: nat, block: seq<byte>, i: nat, v: nat): (r: seq<byte>)
    requires order <= 6 && i < Capacity(order, |block|) && v < Limit(order)
    ensures |r| == |block|
  {
    if order < 3 then
      var k := ByteOf(order, i);
      FieldInByte(order, block[k], i, v);
      block[k := WithField(block[k], ShiftOf(order, i), EntryBits(order), v)]
    else
      var o, w := Offset(order, i), EntryBytes(order);
      block[..o] + ToBE(v, w) + block[o + w..]
  }

  lemma FieldInByte(order: nat, b: byte, i: nat, v: nat)
    requires order < 3 && v < Limit(order)
    ensures WithField(b, ShiftOf(order, i), EntryBits(order), v) < 256
    ensures Field(WithField(b, ShiftOf(order, i), EntryBits(order), v),
                  ShiftOf(order, i), EntryBits(order)) == v
  {
    assert Pow2(8) == 256 by { assert Pow2(4) == 16; }
    FieldStored(b, ShiftOf(order, i), EntryBits(order), v, 8);
  }

  /** The packed get/set law: an entry reads back what was stored and is the only one that changes. */
  lemma GetAfterSet(order: nat, block: seq<byte>, i: nat, v: nat, j: nat)
    requires order <= 6 && i < Capacity(order, |block|) && j < Capacity(order, |block|) && v < Limit(order)
    ensures Get(order, Set(order, block, i, v), j) == if j == i then v else Get(order, block, j)
  {
    if order < 3 {
      GetAfterSetInByte(order, block, i, v, j);
    } else {
      GetAfterSetWide(order, block, i, v, j);
    }
  }

  lemma GetAfterSetInByte(order: nat, block: seq<byte>, i: nat, v: nat, j: nat)
    requires order < 3 && i < Capacity(order, |block|) && j < Capacity(order, |block|) && v < Limit(order)
    ensures Get(order, Set(order, block, i, v), j) == if j == i then v else Get(order, block, j)
  {
    FieldInByte(order, block[ByteOf(order, i)], i, v);
    if j != i && ByteOf(order, j) == ByteOf(order, i) {
      FieldKept(block[ByteOf(order, i)], ShiftOf(order, i), ShiftOf(order, j), EntryBits(order), v);
    }
  }

  lemma GetAfterSetWide(order: nat, block: seq<byte>, i: nat, v: nat, j: nat)
    requires 3 <= order <= 6 && i < Capacity(order, |block|) && j < Capacity(order, |block|) && v < Limit(order)
    ensures Get(order, Set(order, block, i, v), j) == if j == i then v else Get(order, block, j)
  {
    var w, o, p := EntryBytes(order), Offset(order, i), Offset(order, j);
    var r := Set(order, block, i, v);
    assert o + w <= |block| && p + w <= |block|;
    assert j != i ==> p + w <= o || o + w <= p;
    hide *;
    WideSet(order, block, i, v);
    if j == i {
      assert r[o..o + w] == ToBE(v, w);
      ToBERoundTrip(v, w);
    } else {
      assert r[p..p + w] == block[p..p + w];
    }
    WideGet(order, block, j);
    WideGet(order, r, j);
  }

  lemma WideGet(order: nat, block: seq<byte>, j: nat)
    requires 3 <= order <= 6 && j < Capacity(order, |block|)
    ensures Offset(order, j) + EntryBytes(order) <= |block|
    ensures Get(order, block, j) == FromBE(block[Offset(order, j)..Offset(order, j) + EntryBytes(order)])
  {
  }

  lemma WideSet(order: nat, block: seq<byte>, i: nat, v: nat)
    requires 3 <= order <= 6 && i < Capacity(order, |block|) && v < Limit(order)
    ensures Offset(order, i) + EntryBytes(order) <= |block| && Limit(order) == Pow256(EntryBytes(order))
    ensures Set(order, block, i, v)
         == block[..Offset(order, i)] + ToBE(v, EntryBytes(order)) + block[Offset(order, i) + EntryBytes(order)..]
  {
  }

  /** A block of zeros counts nothing: a refcount block fresh from the allocator. */
  lemma GetOfZeros(order: nat, block: seq<byte>, i: nat)
    requires order <= 6 && i < Capacity(order, |block|)
    requires forall k :: 0 <= k < |block| ==> block[k] == 0
    ensures Get(order, block, i) == 0
  {
    if order < 3 {
      FieldOfZero(ShiftOf(order, i), EntryBits(order));
    } else {
      var o, w := Offset(order, i), EntryBytes(order);
      ZerosDenoteZero(block[o..o + w]);
    }
  }

  lemma {:induction false} FieldOfZero(shift: nat, width: nat)
    ensures Field(0, shift, width) == 0
  {
    if shift > 0 {
      FieldOfZero(shift - 1, width);
    } else if width > 0 {
      FieldOfZero(0, width - 1);
    }
  }

  /** Every entry is below the limit of its order. */
  lemma GetBounded(order: nat, block: seq<byte>, i: nat)
    requires order <= 6 && i < Capacity(order, |block|)
    ensures Get(order, block, i) < Limit(order)
  {
    if order < 3 {
      FieldBounded(block[ByteOf(order, i)], ShiftOf(order, i), EntryBits(order));
    }
  }

  /** Bits per entry. */
  function Width(order: nat): nat { Pow2(order) }

  /** Entry i is at bits i * Width on: up to four bits from the low end of their byte, and from 8 bits on the
      bytes of that place, most significant first. */
  lemma EntryPlace(order: nat, block: seq<byte>, i: nat)
    requires order <= 6 && i < Capacity(order, |block|)
    ensures order < 3 ==>
              && i * Width(order) / 8 < |block|
              && Get(order, block, i) == block[i * Width(order) / 8] / Pow2(i * Width(order) % 8) % Pow2(Width(order))
    ensures order >= 3 ==>
              && i * Width(order) % 8 == 0 && Width(order) % 8 == 0
              && (i * Width(order) + Width(order)) / 8 <= |block|
              && Get(order, block, i) == FromBE(block[i * Width(order) / 8..(i * Width(order) + Width(order)) / 8])
  {
    hide FromBE, Pow2, Width, Field;
    Widths();
    if order < 3 {
      assert ByteOf(order, i) == i * Width(order) / 8 && ShiftOf(order, i) == i * Width(order) % 8;
      assert EntryBits(order) == Width(order);
      FieldBits(block[ByteOf(order, i)], ShiftOf(order, i), EntryBits(order));
    } else {
      WidePlace(order, i);
      WideGet(order, block, i);
    }
  }

  /** The entries fill the block. */
  lemma CapacityExact(order: nat, size: nat)
    requires order <= 6 && size % 8 == 0
    ensures Capacity(order, size) * Width(order) == 8 * size
  {
    Widths();
  }

  lemma WidePlace(order: nat, i: nat)
    requires 3 <= order <= 6
    ensures i * Width(order) % 8 == 0 && Width(order) % 8 == 0
    ensures i * Width(order) / 8 == Offset(order, i)
    ensures (i * Width(order) + Width(order)) / 8 == Offset(order, i) + EntryBytes(order)
  {
    hide Width;
    WideBits(order, i);
  }

  lemma WideBits(order: nat, i: nat)
    requires 3 <= order <= 6
    ensures Width(order) == 8 * EntryBytes(order) && i * Width(order) == 8 * Offset(order, i)
  {
    hide Width;
    Widths();
    if order == 3 {
      assert i * Width(order) == i * 8;
    } else if order == 4 {
      assert i * Width(order) == i * 16;
    } else if order == 5 {
      assert i * Width(order) == i * 32;
    } else {
      assert i * Width(order) == i * 64;
    }
  }

  lemma Widths()
    ensures Width(0) == 1 && Width(1) == 2 && Width(2) == 4 && Width(3) == 8 && Width(4) == 16
    ensures Width(5) == 32 && Width(6) == 64
  {
    assert Pow2(3) == 8;
    assert Pow2(5) == 32;
  }

  /** Shifting and masking are division and remainder. */
  lemma {:induction false} FieldBits(b: nat, shift: nat, width: nat)
    ensures Field(b, shift, width) == b / Pow2(shift) % Pow2(width)
  {
    if shift == 0 {
      LowBits(b, width);
    } else {
      FieldBits(b / 2, shift - 1, width);
      DivTwice(b, 2, Pow2(shift - 1));
    }
  }

  lemma {:induction false} LowBits(b: nat, width: nat)
    ensures Low(b, width) == b % Pow2(width)
  {
    if width > 0 {
      LowBits(b / 2, width - 1);
      DivTwice(b, 2, Pow2(width - 1));
    }
  }

  lemma {:induction false} FieldBounded(b: nat, shift: nat, width: nat)
    ensures Field(b, shift, width) < Pow2(width)
  {
    if shift > 0 {
      FieldBounded(b / 2, shift - 1, width);
    } else if width > 0 {
      FieldBounded(b / 2, 0, width - 1);
    }
  }

  /** set_refcount on the cached block, in place: the byte is masked and or-ed for the
      sub-byte orders, and 2, 4 or 8 bytes are stored big-endian for the wide ones. */
  method SetInPlace(order: nat, block: array<byte>, i: nat, v: nat)
    requires order <= 6 && i < Capacity(order, block.Length) && v < Limit(order)
    modifies block
    ensures block[..] == Set(order, old(block[..]), i, v)
  {
    if order < 3 {
      var k := ByteOf(order, i);
      FieldInByte(order, block[k], i, v);
      block[k] := WithField(block[k], ShiftOf(order, i), EntryBits(order), v);
    } else {
      var o, word := Offset(order, i), ToBE(v, EntryBytes(order));
      forall n | 0 <= n < |word| {
        block[o + n] := word[n];
      }
      assert block[..] == Set(order, old(block[..]), i, v);
    }
  }
}
