/** Whole runs: reads, writes and reopens of an image against a plain array of bytes. */
module QcowRuns {
  import opened Bytes
  import opened QcowLayout
  import opened QcowState
  import opened QcowImage
  import opened QcowDisk
  import opened Iovec

  datatype Op = Read(off: nat, len: nat) | Write(off: nat, data: seq<byte>) | Reopen

  /** Requests the SCSI layer lets through: whole sectors inside the disk. */
  predicate InRange(size: nat, op: Op) {
    match op
    case Read(off, len) => off % 512 == 0 && len % 512 == 0 && off + len <= size
    case Write(off, data) => off % 512 == 0 && |data| % 512 == 0 && off + |data| <= size
    case Reopen => true
  }

  predicate AllInRange(size: nat, ops: seq<Op>) {
    forall i :: 0 <= i < |ops| ==> InRange(size, ops[i])
  }

  // ---- the plain array ----

  function ArrayStep(d: seq<byte>, op: Op): (d': seq<byte>)
    requires InRange(|d|, op)
    ensures |d'| == |d|
  {
    if op.Write? then Overlay(d, op.off, op.data) else d
  }

  function ArrayAnswer(d: seq<byte>, op: Op): seq<byte>
    requires InRange(|d|, op)
  {
    if op.Read? then d[op.off..op.off + op.len] else []
  }

  /** The array after all of ops. */
  function ArrayRun(d: seq<byte>, ops: seq<Op>): (d': seq<byte>)
    requires AllInRange(|d|, ops)
    ensures |d'| == |d|
    decreases |ops|
  {
    if ops == [] then d else ArrayRun(ArrayStep(d, ops[0]), ops[1..])
  }

  /** What the reads among ops return, in order. */
  function ArrayAnswers(d: seq<byte>, ops: seq<Op>): seq<seq<byte>>
    requires AllInRange(|d|, ops)
    decreases |ops|
  {
    if ops == [] then [] else [ArrayAnswer(d, ops[0])] + ArrayAnswers(ArrayStep(d, ops[0]), ops[1..])
  }

  // ---- images that behave as a plain array ----

  /** No L2 entry is the bare zero flag. */
  ghost predicate NoZeroFlags(g: Geo, f: seq<byte>) {
    forall i, j :: 0 <= i < g.l1Size && 0 <= j < g.l2n ==> Strip(g, Entry(g, f, i, j)) != 1
  }

  lemma NoZeroFlagsKept(g: Geo, f: seq<byte>, f': seq<byte>)
    requires NoZeroFlags(g, f) && MappingsKept(g, f, f')
    ensures NoZeroFlags(g, f')
  {
    hide Entry, Strip;
  }

  lemma NeighboursAlwaysHeld(g: Geo, f: seq<byte>, off: nat, len: nat)
    requires GeoOK(g) && DiskOK(g) && NoZeroFlags(g, f)
    ensures NeighboursHeld(g, NoBacking, f, off, len)
  {
    hide DiskOK, L1Index, L2Index, InCluster, Touched, Entry, Strip, GeoOK;
    GeoPositive(g);
    forall p | 0 <= p < g.size && Touched(g, off, len, p) && !(off <= p < off + len)
      ensures Held(g, NoBacking, f, p)
    {
      Reachable(g, p);
    }
  }

  /** Without a backing image and zero flags the disk after a write is the array after a store. */
  lemma WriteIsOverlay(g: Geo, f: seq<byte>, role: seq<Role>, f': seq<byte>, off: nat, data: seq<byte>)
    requires GeoOK(g) && DiskOK(g) && TabOK(g, f, role) && NoZeroFlags(g, f) && off + |data| <= g.size && g.cs > 0
    requires DiskWritten(g, NoBacking, f, f', off, data)
    ensures Flat(g, NoBacking, f') == Overlay(Flat(g, NoBacking, f), off, data)
  {
    hide GeoOK, DiskOK, TabOK, NoZeroFlags, NeighboursHeld, FlatByte, Written;
    NeighboursAlwaysHeld(g, f, off, |data|);
    WriteIsOverlayIff(g, NoBacking, f, role, off, data);
    var x, y := Flat(g, NoBacking, f'), Overlay(Flat(g, NoBacking, f), off, data);
    assert |x| == |y| == g.size;
    forall p | 0 <= p < g.size ensures x[p] == y[p] {}
  }

  /** Host allocations a run may need. */
  function RunDemand(g: Geo, ops: seq<Op>): nat {
    if ops == [] then 0
    else (if ops[0].Write? then Demand(g, ops[0].off, |ops[0].data|) else 0) + RunDemand(g, ops[1..])
  }

  ghost predicate Ready(img: Image)
    reads img, img.l2Cache, img.rcCache
  {
    && img.Valid() && DiskOK(img.g) && img.pend == {} && NoZeroFlags(img.g, img.file)
  }

  // ---- requests ----

  /** The addresses of a vector with one entry. */
  lemma OneEntry(v: seq<Iov>, len: nat)
    requires v == [Iov(0, len)]
    ensures Addrs(v) == Run(0, len) && Total(v) == len && Apart(Addrs(v)) && InMem(v, len)
  {
    assert Addrs(v) == Run(0, len) + Addrs([]);
    assert Total(v) == len + Total([]);
  }

  /** A read into one buffer. */
  method ReadRequest(img: Image, off: nat, len: nat) returns (data: seq<byte>)
    requires Ready(img) && InRange(img.g.size, Read(off, len))
    modifies img, img.l2Cache, img.rcCache
    ensures Ready(img) && img.file == old(img.file) && img.Room() == old(img.Room())
    ensures data == Flat(img.g, NoBacking, img.file)[off..off + len]
  {
    hide DiskOK, NoZeroFlags, Inv, Addrs, Total, Apart, InMem, Flat;
    var mem := new byte[len](_ => 0);
    var iov := new Iov[1](_ => Iov(0, len));
    OneEntry(iov[..], len);
    var ret := Preadv(img, NoBacking, mem, iov, off);
    data := mem[..];
    ScatteredRun(data, Flat(img.g, NoBacking, img.file)[off..off + len], mem[..], iov[..], len);
  }

  lemma ScatteredRun(data: seq<byte>, d: seq<byte>, mem: seq<byte>, v: seq<Iov>, len: nat)
    requires |d| == len == |mem| && data == mem && Addrs(v) == Run(0, len)
    requires exists was :: Scattered(was, mem, Addrs(v), d)
    ensures data == d
  {
    hide Addrs;
    var was :| Scattered(was, mem, Addrs(v), d);
    assert forall k :: 0 <= k < len ==> Run(0, len)[k] == k;
  }

  /** A write from one buffer. */
  method WriteRequest(img: Image, off: nat, data: seq<byte>)
    requires Ready(img) && InRange(img.g.size, Write(off, data))
    requires img.Room() >= Demand(img.g, off, |data|)
    modifies img, img.l2Cache, img.rcCache
    ensures Ready(img) && img.Room() >= old(img.Room()) - Demand(img.g, off, |data|)
    ensures Flat(img.g, NoBacking, img.file) == Overlay(Flat(img.g, NoBacking, old(img.file)), off, data)
  {
    hide DiskOK, NoZeroFlags, Inv, Addrs, Total, Apart, InMem, Flat, GeoOK, DiskWritten, Overlay, Demand, Gather;
    ghost var s := img.S();
    AllocFacts(img.g, s);
    TabFacts(img.g, s);
    var mem := new byte[|data|](i requires 0 <= i < |data| => data[i]);
    assert mem[..] == data;
    var iov := new Iov[1](_ => Iov(0, |data|));
    OneEntry(iov[..], |data|);
    var ret := Pwritev(img, NoBacking, mem, iov, off);
    AllSectors(img.g, off, |data|);
    GatherRun(data, iov[..]);
    WriteIsOverlay(img.g, s.file, s.role, img.file, off, data);
    NoZeroFlagsKept(img.g, s.file, img.file);
  }

  lemma TabFacts(g: Geo, s: State)
    requires Inv(g, s)
    ensures TabOK(g, s.file, s.role)
  {
  }

  /** A request inside the disk is not cut off. */
  lemma AllSectors(g: Geo, off: nat, len: nat)
    requires DiskOK(g) && off % 512 == 0 && len % 512 == 0 && off + len <= g.size
    ensures 512 * WriteSectors(g, off, len) == len
  {
  }

  lemma GatherRun(data: seq<byte>, v: seq<Iov>)
    requires Addrs(v) == Run(0, |data|)
    ensures Gather(data, Addrs(v)[..|data|]) == data
  {
  }

  /** Closing the image and opening it again: only the file survives. */
  method ReopenRequest(img: Image) returns (img': Image)
    requires Ready(img)
    ensures Ready(img') && fresh(img') && fresh(img'.l2Cache) && fresh(img'.rcCache)
    ensures img'.g == img.g && img'.file == img.file && img'.Room() >= img.Room()
  {
    hide DiskOK, NoZeroFlags, TabOK, UseOK, GeoOK, Fits, Missing, Cover, FreeFrom;
    AllocFacts(img.g, img.S());
    FreeMore(img.g, img.file, 0, img.ff);
    img' := new Image.Open(img.g, img.file, img.role);
    assert img'.refcountTable == img.refcountTable;
  }

  /** Any run of reads, writes and reopens answers as the plain array does and leaves the disk
      as the plain array ends. */
  method Serve(img: Image, ops: seq<Op>) returns (answers: seq<seq<byte>>, img': Image)
    requires Ready(img) && AllInRange(img.g.size, ops) && img.Room() >= RunDemand(img.g, ops)
    modifies img, img.l2Cache, img.rcCache
    ensures Ready(img') && img'.g == img.g
    ensures answers == ArrayAnswers(old(Flat(img.g, NoBacking, img.file)), ops)
    ensures Flat(img'.g, NoBacking, img'.file) == ArrayRun(old(Flat(img.g, NoBacking, img.file)), ops)
    decreases |ops|
  {
    hide Flat, Demand, Ready;
    answers, img' := [], img;
    if ops != [] {
      ghost var d := Flat(img.g, NoBacking, img.file);
      var answer := [];
      match ops[0] {
        case Read(off, len) =>
          answer := ReadRequest(img, off, len);
        case Write(off, data) =>
          WriteRequest(img, off, data);
        case Reopen =>
          img' := ReopenRequest(img);
      }
      var rest;
      rest, img' := Serve(img', ops[1..]);
      answers := [answer] + rest;
    }
  }
}
