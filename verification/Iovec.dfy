/** Scatter/gather vectors. Entries are offsets into the memory area shared with the kernel;
    a vector denotes the list of addresses it runs through, `Addrs`, and the bytes found there. */
module Iovec {
  import opened Bytes
  import opened Common

  datatype Iov = Iov(base: nat, len: nat)

  function Run(base: nat, len: nat): (a: seq<nat>)
    ensures |a| == len && forall k :: 0 <= k < len ==> a[k] == base + k
  {
    seq(len, k requires 0 <= k => base + k)
  }

  /** The addresses a vector runs through, in order. */
  function Addrs(v: seq<Iov>): seq<nat> {
    if v == [] then [] else Run(v[0].base, v[0].len) + Addrs(v[1..])
  }

  function Total(v: seq<Iov>): nat {
    if v == [] then 0 else v[0].len + Total(v[1..])
  }

  lemma {:induction false} AddrsLength(v: seq<Iov>)
    ensures |Addrs(v)| == Total(v)
  {
    if v != [] { AddrsLength(v[1..]); }
  }

  lemma {:induction false} AddrsConcat(v: seq<Iov>, w: seq<Iov>)
    ensures Addrs(v + w) == Addrs(v) + Addrs(w)
  {
    if v == [] {
      assert v + w == w;
    } else {
      assert (v + w)[1..] == v[1..] + w;
      AddrsConcat(v[1..], w);
    }
  }

  /** Consuming t bytes of the first entry that still has any. */
  lemma {:induction false} AddrsConsume(v: seq<Iov>, i: nat, t: nat)
    requires i < |v| && t <= v[i].len
    requires forall j :: 0 <= j < i ==> v[j].len == 0
    ensures t <= |Addrs(v)| && Addrs(v)[..t] == Run(v[i].base, t)
    ensures Addrs(v[i := Iov(v[i].base + t, v[i].len - t)]) == Addrs(v)[t..]
  {
    var w := v[i := Iov(v[i].base + t, v[i].len - t)];
    if i == 0 {
      assert w[1..] == v[1..];
      RunConsume(v[0].base, v[0].len, t, Addrs(v[1..]));
    } else {
      assert w[1..] == v[1..][i - 1 := w[i]];
      AddrsConsume(v[1..], i - 1, t);
      assert Run(v[0].base, 0) + Addrs(v[1..]) == Addrs(v[1..]);
      assert Run(w[0].base, 0) + Addrs(w[1..]) == Addrs(w[1..]);
    }
  }

  lemma RunConsume(base: nat, len: nat, t: nat, r: seq<nat>)
    requires t <= len
    ensures (Run(base, len) + r)[..t] == Run(base, t)
    ensures (Run(base, len) + r)[t..] == Run(base + t, len - t) + r
  {
  }

  lemma {:induction false} EmptyEntries(v: seq<Iov>)
    requires forall j :: 0 <= j < |v| ==> v[j].len == 0
    ensures Addrs(v) == []
  {
    if v != [] { EmptyEntries(v[1..]); }
  }

  /** Every entry lies in a memory of n bytes. */
  ghost predicate InMem(v: seq<Iov>, n: nat) {
    forall i :: 0 <= i < |v| ==> v[i].base + v[i].len <= n
  }

  lemma {:induction false} AddrsInMem(v: seq<Iov>, n: nat)
    requires InMem(v, n)
    ensures forall k :: 0 <= k < |Addrs(v)| ==> Addrs(v)[k] < n
  {
    if v != [] {
      assert InMem(v[1..], n);
      AddrsInMem(v[1..], n);
    }
  }

  /** No byte of memory is named twice. */
  ghost predicate Apart(a: seq<nat>) {
    forall j, k :: 0 <= j < k < |a| ==> a[j] != a[k]
  }

  /** The bytes at the addresses a. */
  function Gather(mem: seq<byte>, a: seq<nat>): (d: seq<byte>)
    requires forall k :: 0 <= k < |a| ==> a[k] < |mem|
    ensures |d| == |a| && forall k :: 0 <= k < |a| ==> d[k] == mem[a[k]]
  {
    seq(|a|, k requires 0 <= k < |a| => mem[a[k]])
  }

  /** Memory `mem` with data stored at the addresses a, and everything else as in `was`. */
  ghost predicate Scattered(was: seq<byte>, mem: seq<byte>, a: seq<nat>, data: seq<byte>) {
    && |mem| == |was| && |a| <= |data|
    && (forall k :: 0 <= k < |a| ==> a[k] < |mem| && mem[a[k]] == data[k])
    && (forall p :: 0 <= p < |mem| && p !in a ==> mem[p] == was[p])
  }

  /** tcmu_iovec_length */
  method IovecLength(iov: array<Iov>, cnt: nat) returns (length: nat)
    requires cnt <= iov.Length
    ensures length == Total(iov[..cnt]) == |Addrs(iov[..cnt])|
  {
    length := 0;
    var i := 0;
    while i < cnt
      invariant 0 <= i <= cnt
      invariant length + Total(iov[i..cnt]) == Total(iov[..cnt])
    {
      assert iov[i..cnt][1..] == iov[i + 1..cnt];
      length := length + iov[i].len;
      i := i + 1;
    }
    AddrsLength(iov[..cnt]);
  }

  /** One entry of the array consumed by n bytes. */
  lemma ConsumeEntry(v: seq<Iov>, w: seq<Iov>, a: seq<nat>, done: nat, i: nat, n: nat)
    requires i < |v| && n <= v[i].len && w == v[i := Iov(v[i].base + n, v[i].len - n)]
    requires forall j :: 0 <= j < i ==> v[j].len == 0
    requires done <= |a| && Addrs(v) == a[done..]
    ensures done + n <= |a| && Addrs(w) == a[done + n..]
    ensures forall q :: done <= q < done + n ==> a[q] == v[i].base + (q - done)
  {
    AddrsConsume(v, i, n);
    assert a[done..][n..] == a[done + n..];
    forall q | done <= q < done + n ensures a[q] == v[i].base + (q - done) {
      assert a[q] == Addrs(v)[q - done] == Addrs(v)[..n][q - done];
    }
  }

  /** tcmu_memcpy_into_iovec: copy in, and leave the vector denoting what is left of it. */
  method MemcpyIntoIovec(mem: array<byte>, iov: array<Iov>, cnt: nat, src: seq<byte>, len: nat) returns (copied: nat)
    requires cnt <= iov.Length && len <= |src|
    requires InMem(iov[..cnt], mem.Length) && Apart(Addrs(iov[..cnt]))
    modifies mem, iov
    ensures copied == Min(len, |old(Addrs(iov[..cnt]))|)
    ensures Scattered(old(mem[..]), mem[..], old(Addrs(iov[..cnt]))[..copied], src)
    ensures Addrs(iov[..cnt]) == old(Addrs(iov[..cnt]))[copied..]
    ensures iov[cnt..] == old(iov[cnt..])
  {
    hide Addrs, Apart, Scattered;
    ghost var a, was := Addrs(iov[..cnt]), mem[..];
    copied := 0;
    var left := len;
    var i := 0;
    ScatteredNothing(was, a, src);
    while left > 0 && i < cnt
      invariant 0 <= i <= cnt && 0 <= left && copied + left == len && copied <= |a|
      invariant Addrs(iov[..cnt]) == a[copied..]
      invariant left > 0 ==> forall j :: 0 <= j < i ==> iov[j].len == 0
      invariant InMem(iov[..cnt], mem.Length)
      invariant iov[cnt..] == old(iov[cnt..])
      invariant Scattered(was, mem[..], a[..copied], src)
    {
      var toCopy := Min(iov[i].len, left);
      if toCopy > 0 {
        ghost var v, mid := iov[..cnt], mem[..];
        ConsumeEntry(v, v[i := Iov(v[i].base + toCopy, v[i].len - toCopy)], a, copied, i, toCopy);
        CopyAt(mem, iov[i].base, src, copied, toCopy);
        CopyRun(was, mid, mem[..], a, copied, toCopy, iov[i].base, src);
        left := left - toCopy;
        copied := copied + toCopy;
        iov[i] := Iov(iov[i].base + toCopy, iov[i].len - toCopy);
        assert iov[..cnt] == v[i := Iov(v[i].base + toCopy, v[i].len - toCopy)];
      }
      i := i + 1;
    }
    if left > 0 {
      EmptyEntries(iov[..cnt]);
    }
  }

  /** memcpy(mem + base, src + from, n) */
  method CopyAt(mem: array<byte>, base: nat, src: seq<byte>, from: nat, n: nat)
    requires base + n <= mem.Length && from + n <= |src|
    modifies mem
    ensures forall p :: 0 <= p < mem.Length ==>
              mem[p] == if base <= p < base + n then src[from + p - base] else old(mem[p])
  {
    forall k | 0 <= k < n {
      mem[base + k] := src[from + k];
    }
  }

  lemma ScatteredNothing(was: seq<byte>, a: seq<nat>, src: seq<byte>)
    ensures Scattered(was, was, a[..0], src)
  {
  }

  /** Storing the next run of bytes extends what has been scattered. */
  lemma CopyRun(was: seq<byte>, mid: seq<byte>, mem: seq<byte>, a: seq<nat>, copied: nat, n: nat, base: nat,
                src: seq<byte>)
    requires copied + n <= |a| && copied + n <= |src| && Apart(a)
    requires Scattered(was, mid, a[..copied], src)
    requires forall q :: copied <= q < copied + n ==> a[q] == base + (q - copied)
    requires |mem| == |mid| && base + n <= |mem|
    requires forall p :: 0 <= p < |mem| ==> mem[p] == if base <= p < base + n then src[copied + p - base] else mid[p]
    ensures Scattered(was, mem, a[..copied + n], src)
  {
    var b, c := a[..copied + n], a[..copied];
    assert c == b[..copied];
    forall k | 0 <= k < |b|
      ensures b[k] < |mem| && mem[b[k]] == src[k]
    {
      if k < copied {
        assert c[k] == b[k] == a[k];
        InRun(a, copied, n, base, a[k]);
      }
    }
    forall p | 0 <= p < |mem| && p !in b
      ensures mem[p] == was[p]
    {
      InRun(b, copied, n, base, p);
    }
  }

  /** Every address of the run is named by the vector. */
  lemma InRun(a: seq<nat>, copied: nat, n: nat, base: nat, x: nat)
    requires copied + n <= |a| && forall q :: copied <= q < copied + n ==> a[q] == base + (q - copied)
    ensures base <= x < base + n ==> a[copied + (x - base)] == x
  {
  }

  /** tcmu_memcpy_from_iovec: copy out, and leave the vector denoting what is left of it. */
  method MemcpyFromIovec(mem: array<byte>, len: nat, iov: array<Iov>, cnt: nat) returns (dest: seq<byte>)
    requires cnt <= iov.Length && InMem(iov[..cnt], mem.Length)
    modifies iov
    ensures |dest| == Min(len, |old(Addrs(iov[..cnt]))|)
    ensures forall k :: 0 <= k < |old(Addrs(iov[..cnt]))| ==> old(Addrs(iov[..cnt]))[k] < mem.Length
    ensures dest == Gather(mem[..], old(Addrs(iov[..cnt]))[..|dest|])
    ensures Addrs(iov[..cnt]) == old(Addrs(iov[..cnt]))[|dest|..]
    ensures iov[cnt..] == old(iov[cnt..])
  {
    hide Addrs;
    ghost var a := Addrs(iov[..cnt]);
    dest := [];
    var left := len;
    var i := 0;
    AddrsInMem(iov[..cnt], mem.Length);
    while left > 0 && i < cnt
      invariant 0 <= i <= cnt && 0 <= left && |dest| + left == len && |dest| <= |a|
      invariant Addrs(iov[..cnt]) == a[|dest|..]
      invariant left > 0 ==> forall j :: 0 <= j < i ==> iov[j].len == 0
      invariant InMem(iov[..cnt], mem.Length)
      invariant iov[cnt..] == old(iov[cnt..])
      invariant forall k :: 0 <= k < |dest| ==> dest[k] == mem[a[k]]
    {
      var toCopy := Min(iov[i].len, left);
      if toCopy > 0 {
        ghost var v := iov[..cnt];
        ConsumeEntry(v, v[i := Iov(v[i].base + toCopy, v[i].len - toCopy)], a, |dest|, i, toCopy);
        dest := dest + mem[iov[i].base..iov[i].base + toCopy];
        left := left - toCopy;
        iov[i] := Iov(iov[i].base + toCopy, iov[i].len - toCopy);
        assert iov[..cnt] == v[i := Iov(v[i].base + toCopy, v[i].len - toCopy)];
      }
      i := i + 1;
    }
    if left > 0 {
      EmptyEntries(iov[..cnt]);
    }
  }

  /** tcmu_seek_in_iovec: drop exactly `count` bytes; the entries used up are the first `consumed`. */
  method SeekInIovec(iov: array<Iov>, count: nat) returns (consumed: nat)
    requires count <= Total(iov[..])
    modifies iov
    ensures count <= |old(Addrs(iov[..]))| && Addrs(iov[..]) == old(Addrs(iov[..]))[count..]
    ensures consumed <= iov.Length
    ensures Total(old(iov[..consumed])) <= count
    ensures consumed > 0 ==> Total(old(iov[..consumed - 1])) < count
    ensures Total(old(iov[..consumed])) < count ==> consumed < iov.Length && count < Total(old(iov[..consumed + 1]))
  {
    hide Addrs, Total;
    ghost var v, a := iov[..], Addrs(iov[..]);
    AddrsLength(v);
    TotalEmpty(v);
    consumed := 0;
    var left := count;
    while left > 0
      invariant 0 <= consumed <= iov.Length && 0 <= left <= count <= |a|
      invariant Addrs(iov[..]) == a[count - left..]
      invariant forall j :: 0 <= j < consumed ==> iov[j].len == 0
      invariant left > 0 ==> iov[consumed..] == v[consumed..] && Total(v[..consumed]) == count - left
      invariant Total(v[..consumed]) <= count && (consumed > 0 ==> Total(v[..consumed - 1]) < count)
      invariant left == 0 && Total(v[..consumed]) < count ==>
                  consumed < iov.Length && count < Total(v[..consumed + 1])
      decreases left, iov.Length - consumed
    {
      ghost var w := iov[..];
      if consumed == iov.Length {
        TotalWhole(v);
        assert false;
      }
      TotalStep(v, consumed);
      assert iov[consumed] == v[consumed];
      var n := Min(left, iov[consumed].len);
      ConsumeEntry(w, w[consumed := Iov(w[consumed].base + n, w[consumed].len - n)], a, count - left, consumed, n);
      if left >= iov[consumed].len {
        left := left - iov[consumed].len;
        iov[consumed] := Iov(iov[consumed].base + iov[consumed].len, 0);
        assert iov[..] == w[consumed := iov[consumed]];
        consumed := consumed + 1;
      } else {
        iov[consumed] := Iov(iov[consumed].base + left, iov[consumed].len - left);
        assert iov[..] == w[consumed := iov[consumed]];
        left := 0;
      }
    }
    assert forall n :: 0 <= n <= iov.Length ==> old(iov[..n]) == v[..n];
  }

  lemma TotalEmpty(v: seq<Iov>)
    ensures Total(v[..0]) == 0
  {
  }

  lemma TotalWhole(v: seq<Iov>)
    ensures Total(v[..|v|]) == Total(v)
  {
    assert v[..|v|] == v;
  }

  lemma {:induction false} TotalStep(v: seq<Iov>, i: nat)
    requires i < |v|
    ensures Total(v[..i + 1]) == Total(v[..i]) + v[i].len
  {
    if i == 0 {
      assert v[..1][1..] == [];
    } else {
      assert v[..i + 1][1..] == v[1..][..i] && v[..i][1..] == v[1..][..i - 1];
      TotalStep(v[1..], i - 1);
    }
  }

  /** tcmu_compare_with_iovec: the first mismatching index, or -1. */
  method CompareWithIovec(mem: array<byte>, data: seq<byte>, iov: array<Iov>, size: nat) returns (at: int)
    requires size <= |data| && size <= Total(iov[..]) && InMem(iov[..], mem.Length)
    ensures size <= |Addrs(iov[..])| && forall k :: 0 <= k < size ==> Addrs(iov[..])[k] < mem.Length
    ensures at == -1 || 0 <= at < size
    ensures at == -1 <==> data[..size] == Gather(mem[..], Addrs(iov[..])[..size])
    ensures at >= 0 ==>
              data[at] != mem[Addrs(iov[..])[at]] && forall k :: 0 <= k < at ==> data[k] == mem[Addrs(iov[..])[k]]
  {
    hide Addrs, Total;
    ghost var a := Addrs(iov[..]);
    AddrsLength(iov[..]);
    AddrsInMem(iov[..], mem.Length);
    var memOff, left, i := 0, size, 0;
    assert iov[0..] == iov[..];
    while left > 0
      invariant 0 <= i <= iov.Length && 0 <= memOff && 0 <= left && memOff + left == size
      invariant left > 0 ==> Addrs(iov[i..]) == a[memOff..]
      invariant forall k :: 0 <= k < memOff ==> data[k] == mem[a[k]]
      decreases left, iov.Length - i
    {
      AddrsHead(iov[i..]);
      assert iov[i..][1..] == iov[i + 1..];
      var part := Min(left, iov[i].len);
      AddrsPart(iov[i..], a, memOff, part);
      var pos := FirstMismatch(mem, data, memOff, iov[i].base, part);
      if pos < part {
        at := memOff + pos;
        assert data[..size][at] != Gather(mem[..], a[..size])[at];
        return;
      }
      left := left - part;
      memOff := memOff + part;
      i := i + 1;
    }
    at := -1;
    assert data[..size] == Gather(mem[..], a[..size]);
  }

  /** The byte-by-byte search of tcmu_compare_with_iovec inside one entry. */
  method FirstMismatch(mem: array<byte>, data: seq<byte>, from: nat, base: nat, part: nat) returns (pos: nat)
    requires from + part <= |data| && base + part <= mem.Length
    ensures pos <= part && (pos < part ==> data[from + pos] != mem[base + pos])
    ensures forall q :: from <= q < from + pos ==> data[q] == mem[base + (q - from)]
  {
    pos := 0;
    while pos < part && data[from + pos] == mem[base + pos]
      invariant 0 <= pos <= part
      invariant forall q :: from <= q < from + pos ==> data[q] == mem[base + (q - from)]
    {
      pos := pos + 1;
    }
  }

  lemma AddrsHead(v: seq<Iov>)
    ensures v == [] ==> Addrs(v) == []
    ensures v != [] ==> Addrs(v) == Run(v[0].base, v[0].len) + Addrs(v[1..])
  {
  }

  /** What one entry of the rest of a vector covers. */
  lemma AddrsPart(v: seq<Iov>, a: seq<nat>, done: nat, part: nat)
    requires v != [] && done <= |a| && Addrs(v) == a[done..] && part <= v[0].len
    ensures done + part <= |a| && forall q :: done <= q < done + part ==> a[q] == v[0].base + (q - done)
    ensures part == v[0].len ==> Addrs(v[1..]) == a[done + part..]
  {
    hide Addrs;
    AddrsHead(v);
    var r := Run(v[0].base, v[0].len);
    forall q | done <= q < done + part ensures a[q] == v[0].base + (q - done) {
      assert a[q] == a[done..][q - done] == (r + Addrs(v[1..]))[q - done] == r[q - done];
    }
    if part == v[0].len {
      assert a[done + part..] == a[done..][part..] == (r + Addrs(v[1..]))[part..];
    }
  }

  /** The first n entries of `seg` denote the first len - left of bytes [off, off + len) of the vector, and
      entries i and on the rest of them. */
  ghost predicate Cut(iov: array<Iov>, seg: array<Iov>, i: nat, n: nat, off: nat, len: nat, left: nat)
    reads iov, seg
  {
    && n <= i <= iov.Length && i <= seg.Length && left <= len && off + len <= |Addrs(iov[..])|
    && Addrs(seg[..n]) == Addrs(iov[..])[off..off + (len - left)]
    && (left > 0 ==> Addrs(iov[i..]) == Addrs(iov[..])[off + (len - left)..])
  }

  /** iovec_segment: entries of `seg` that denote exactly bytes [off, off + len) of the vector. */
  method IovecSegment(iov: array<Iov>, seg: array<Iov>, off: nat, len: nat, ghost memSize: nat) returns (n: nat)
    requires iov != seg && seg.Length >= iov.Length && off + len <= Total(iov[..])
    requires InMem(iov[..], memSize)
    modifies seg
    ensures n <= seg.Length && InMem(seg[..n], memSize)
    ensures n <= iov.Length && off + len <= |Addrs(iov[..])|
    ensures Addrs(seg[..n]) == Addrs(iov[..])[off..off + len]
  {
    hide Addrs, Total, Run, InMem;
    var i: nat, left: nat;
    i, left, n := SkipTo(iov, seg, off, len, memSize);
    while left > 0
      invariant Cut(iov, seg, i, n, off, len, left) && InMem(seg[..n], memSize)
      decreases left, iov.Length - i
    {
      AddrsHead(iov[i..]);
      var m := Min(iov[i].len, left);
      TakePart(iov, seg, i, n, 0, m, Addrs(iov[..]), off, off + (len - left), memSize);
      left := left - m;
      i := i + 1;
      n := n + 1;
    }
  }

  /** Its first loop: entries before byte `off` are passed, and the one it is in is taken from there. */
  method SkipTo(iov: array<Iov>, seg: array<Iov>, off: nat, len: nat, ghost memSize: nat)
    returns (i: nat, left: nat, n: nat)
    requires iov != seg && seg.Length >= iov.Length && off + len <= Total(iov[..])
    requires InMem(iov[..], memSize)
    modifies seg
    ensures Cut(iov, seg, i, n, off, len, left) && InMem(seg[..n], memSize)
  {
    hide Addrs, Total, Run, InMem;
    EmptyInMem(seg[..0], memSize);
    ghost var a := Addrs(iov[..]);
    AddrsLength(iov[..]);
    AddrsHead(seg[..0]);
    i, left, n := 0, len, 0;
    var skip: nat := off;
    assert iov[0..] == iov[..];
    while skip > 0
      invariant n <= i <= iov.Length && skip <= off && InMem(seg[..n], memSize)
      invariant skip > 0 ==> n == 0 && left == len && Addrs(iov[i..]) == a[off - skip..]
      invariant skip == 0 ==> Cut(iov, seg, i, n, off, len, left)
      decreases skip, iov.Length - i
    {
      AddrsHead(iov[i..]);
      assert iov[i..][1..] == iov[i + 1..];
      if skip >= iov[i].len {
        AddrsPart(iov[i..], a, off - skip, iov[i].len);
        skip := skip - iov[i].len;
        i := i + 1;
      } else {
        var m := Min(iov[i].len - skip, left);
        TakePart(iov, seg, i, n, skip, m, a, off, off - skip, memSize);
        skip := 0;
        left := left - m;
        i := i + 1;
        n := n + 1;
      }
    }
  }

  lemma EmptyInMem(w: seq<Iov>, memSize: nat)
    requires w == []
    ensures InMem(w, memSize)
  {
  }

  lemma SegmentInMem(v: seq<Iov>, i: nat, skip: nat, m: nat, w: seq<Iov>, memSize: nat)
    requires InMem(v, memSize) && InMem(w, memSize) && i < |v| && skip + m <= v[i].len
    ensures InMem(w + [Iov(v[i].base + skip, m)], memSize)
  {
  }

  /** *seg++ = m bytes of entry i, from `skip` bytes into it */
  method TakePart(iov: array<Iov>, seg: array<Iov>, i: nat, n: nat, skip: nat, m: nat,
                  ghost a: seq<nat>, ghost off: nat, ghost done: nat, ghost memSize: nat)
    requires iov != seg && i < iov.Length && n < seg.Length && skip + m <= iov[i].len
    requires off <= done + skip && done <= |a| && Addrs(iov[i..]) == a[done..]
    requires done + skip <= |a| && Addrs(seg[..n]) == a[off..done + skip]
    requires InMem(iov[..], memSize) && InMem(seg[..n], memSize)
    modifies seg
    ensures done + skip + m <= |a| && Addrs(seg[..n + 1]) == a[off..done + skip + m]
    ensures InMem(seg[..n + 1], memSize)
    ensures skip + m == iov[i].len ==> Addrs(iov[i + 1..]) == a[done + skip + m..]
  {
    hide Addrs, Run, InMem;
    ghost var w := seg[..n];
    var e := Iov(iov[i].base + skip, m);
    assert iov[i..][1..] == iov[i + 1..];
    SegmentEntry(iov[i..], a, done, skip, m);
    SegmentGrows(a, w, e, off, done + skip, done + skip + m);
    SegmentInMem(iov[..], i, skip, m, w, memSize);
    seg[n] := e;
    assert seg[..n + 1] == w + [e];
  }

  /** Emitting an entry that covers bytes [p, q) of the vector extends the segment by them. */
  lemma SegmentGrows(a: seq<nat>, w: seq<Iov>, e: Iov, off: nat, p: nat, q: nat)
    requires off <= p <= q <= |a| && Addrs(w) == a[off..p] && Run(e.base, e.len) == a[p..q]
    ensures Addrs(w + [e]) == a[off..q]
  {
    AddrsConcat(w, [e]);
    assert Addrs([e]) == Run(e.base, e.len) + Addrs([]);
    hide Addrs, Run;
    assert a[off..p] + a[p..q] == a[off..q];
  }

  /** m bytes of the first entry of the rest of a vector, from `skip` bytes into it. */
  lemma SegmentEntry(v: seq<Iov>, a: seq<nat>, done: nat, skip: nat, m: nat)
    requires v != [] && done <= |a| && Addrs(v) == a[done..] && skip + m <= v[0].len
    ensures done + skip + m <= |a| && Run(v[0].base + skip, m) == a[done + skip..done + skip + m]
    ensures skip + m == v[0].len ==> Addrs(v[1..]) == a[done + skip + m..]
  {
    AddrsPart(v, a, done, skip + m);
    hide Addrs;
  }
}
