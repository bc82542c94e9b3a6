/** The 16-slot cache of table blocks that l2_cache_lookup and rc_cache_lookup share:
    a slot is keyed by the block's file offset (0 is an empty slot), the least used
    slot is evicted, and updates are written through to the file by the caller. */
module TableCache {
  import opened Bytes

  const SLOTS: nat := 16

  datatype Slot = Slot(key: nat, count: nat, data: seq<byte>)

  /** A used slot holds exactly the file's bytes at its key. */
  ghost predicate Holds(s: Slot, blockSize: nat, file: seq<byte>) {
    s.key != 0 ==>
      && s.key + blockSize <= |file|
      && s.data == file[s.key..s.key + blockSize]
  }

  ghost predicate Coherent(slots: seq<Slot>, blockSize: nat, file: seq<byte>) {
    && |slots| == SLOTS
    && (forall i :: 0 <= i < SLOTS ==> Holds(slots[i], blockSize, file))
    && (forall i, j :: 0 <= i < j < SLOTS && slots[i].key != 0 ==> slots[i].key != slots[j].key)
  }

  /** Coherence survives any change of the file outside the cached blocks. */
  lemma CoherentFrame(slots: seq<Slot>, blockSize: nat, file: seq<byte>, file': seq<byte>)
    requires Coherent(slots, blockSize, file) && |file| <= |file'|
    requires forall i, k :: 0 <= i < SLOTS && slots[i].key != 0 && slots[i].key <= k < slots[i].key + blockSize
               ==> file'[k] == file[k]
    ensures Coherent(slots, blockSize, file')
  {
    forall i | 0 <= i < SLOTS
      ensures Holds(slots[i], blockSize, file')
    {
      assert Holds(slots[i], blockSize, file);
      if slots[i].key != 0 {
        var o := slots[i].key;
        assert file'[o..o + blockSize] == file[o..o + blockSize];
      }
    }
  }

  /** A write-through update of one slot keeps the whole cache coherent when the other
      cached blocks do not overlap the bytes written. */
  lemma WriteThrough(slots: seq<Slot>, blockSize: nat, file: seq<byte>, at: nat, off: nat, data: seq<byte>)
    requires Coherent(slots, blockSize, file) && at < SLOTS && slots[at].key != 0
    requires off + |data| <= blockSize
    requires forall i :: 0 <= i < SLOTS && i != at && slots[i].key != 0 ==>
               slots[i].key + blockSize <= slots[at].key || slots[at].key + blockSize <= slots[i].key
    ensures Coherent(slots[at := slots[at].(data := Pwrite(slots[at].data, off, data))], blockSize,
                     Pwrite(file, slots[at].key + off, data))
  {
    var file' := Pwrite(file, slots[at].key + off, data);
    var slots' := slots[at := slots[at].(data := Pwrite(slots[at].data, off, data))];
    assert forall i :: 0 <= i < SLOTS ==> slots'[i].key == slots[i].key;
    forall i | 0 <= i < SLOTS
      ensures Holds(slots'[i], blockSize, file')
    {
      if i == at {
        SlotWritten(slots[at], blockSize, file, off, data);
      } else {
        SlotKept(slots[i], blockSize, file, slots[at].key + off, data);
      }
    }
  }

  lemma SlotWritten(s: Slot, blockSize: nat, file: seq<byte>, off: nat, data: seq<byte>)
    requires Holds(s, blockSize, file) && s.key != 0 && off + |data| <= blockSize
    ensures Holds(s.(data := Pwrite(s.data, off, data)), blockSize, Pwrite(file, s.key + off, data))
  {
    var file' := Pwrite(file, s.key + off, data);
    assert forall k :: 0 <= k < blockSize ==> s.data[k] == file[s.key + k];
    assert Pwrite(s.data, off, data) == file'[s.key..s.key + blockSize];
  }

  lemma SlotKept(s: Slot, blockSize: nat, file: seq<byte>, off: nat, data: seq<byte>)
    requires Holds(s, blockSize, file)
    requires s.key != 0 ==> s.key + blockSize <= off || off + |data| <= s.key
    ensures Holds(s, blockSize, Pwrite(file, off, data))
  {
    if s.key != 0 {
      assert Pwrite(file, off, data)[s.key..s.key + blockSize] == file[s.key..s.key + blockSize];
    }
  }

  class TableCache {
    const blockSize: nat
    var slots: seq<Slot>

    ghost predicate Valid(file: seq<byte>)
      reads this
    {
      Coherent(slots, blockSize, file)
    }

    constructor (blockSize: nat)
      ensures this.blockSize == blockSize
      ensures forall file :: Valid(file)
      ensures forall i :: 0 <= i < |slots| ==> slots[i].key == 0
    {
      this.blockSize := blockSize;
      slots := seq(SLOTS, _ => Slot(0, 0, Zeros(blockSize)));
    }

    /** The slot holding the block at `off`, filled from the file on a miss; None when the
        read comes up short, which leaves the evicted slot's bytes clobbered under its old key. */
    method Lookup(file: seq<byte>, off: nat) returns (at: nat, found: bool)
      requires Valid(file) && off != 0
      modifies this
      ensures found <==> off + blockSize <= |file|
      ensures found ==> Valid(file) && at < SLOTS && slots[at].key == off
      ensures found ==> slots[at].data == file[off..off + blockSize]
      ensures found ==> forall i :: 0 <= i < SLOTS ==> slots[i].key == off || slots[i].key == old(slots[i].key)
    {
      var i := 0;
      while i < SLOTS
        invariant 0 <= i <= SLOTS
        invariant forall k :: 0 <= k < i ==> slots[k].key != off
        invariant slots == old(slots)
      {
        if slots[i].key == off {
          assert Holds(slots[i], blockSize, file);
          slots := slots[i := slots[i].(count := slots[i].count + 1)];
          return i, true;
        }
        i := i + 1;
      }
      var min := LeastUsed();
      if off + blockSize <= |file| {
        slots := slots[min := Slot(off, 1, file[off..off + blockSize])];
        forall k | 0 <= k < SLOTS
          ensures Holds(slots[k], blockSize, file)
        {
          if k != min { assert Holds(old(slots)[k], blockSize, file); }
        }
        return min, true;
      }
      var got := if off < |file| then file[off..] else [];
      slots := slots[min := slots[min].(data := Pwrite(slots[min].data, 0, got))];
      return min, false;
    }

    /** The first slot with the smallest hit count. */
    method LeastUsed() returns (min: nat)
      requires |slots| == SLOTS
      ensures min < SLOTS
      ensures forall k :: 0 <= k < SLOTS ==> slots[min].count <= slots[k].count
      ensures forall k :: 0 <= k < min ==> slots[min].count < slots[k].count
    {
      min := 0;
      var i := 0;
      while i < SLOTS
        invariant 0 <= i <= SLOTS && 0 <= min < SLOTS && (i > 0 ==> min < i)
        invariant i == 0 ==> min == 0
        invariant forall k :: 0 <= k < i ==> slots[min].count <= slots[k].count
        invariant forall k :: 0 <= k < min ==> slots[min].count < slots[k].count
      {
        if slots[i].count < slots[min].count {
          min := i;
        }
        i := i + 1;
      }
    }
  }
}
