/** When OPEN ZONE with the ALL bit keeps the limit of open zones: one scan over the zones before the
    command tells. */
module ZoneLimit {
  import opened Zones
  import opened ZoneCommands

  /** What one zone adds to the balance: a closed zone will be opened; an implicitly open zone can be
      evicted, which gains nothing if by then the balance calls for it and it holds data, because
      the command reopens it when it gets there. */
  function Weigh(z: Zone, b: int): int {
    match z.cond
    case Closed => b + 1
    case ImpOpen => if HasData(z) == 1 && b > 0 then b else b - 1
    case _ => b
  }

  /** The balance after the zones from index i on. */
  function Scan(zs: seq<Zone>, i: nat, b: int): int
    requires i <= |zs|
    decreases |zs| - i
  {
    if i == |zs| then b else Scan(zs, i + 1, Weigh(zs[i], b))
  }

  /** The open zones beyond the limit that OPEN ALL will end with, if positive. */
  function Balance(d: Dev): int { Scan(d.zones, 0, OpenCount(d.zones) - d.limit) }

  lemma {:induction false} ScanSame(zs: seq<Zone>, ws: seq<Zone>, i: nat, b: int)
    requires |zs| == |ws| && i <= |zs| && forall k :: i <= k < |zs| ==> zs[k] == ws[k]
    ensures Scan(zs, i, b) == Scan(ws, i, b)
    decreases |zs| - i
  {
    if i < |zs| { ScanSame(zs, ws, i + 1, Weigh(zs[i], b)); }
  }

  /** Evicting the first implicitly open zone ahead is worth one opening, no more: with nothing to gain
      behind, a written victim comes back. */
  lemma {:induction false} ScanEvicted(zs: seq<Zone>, v: nat, i: nat, b: int)
    requires i <= v < |zs| && b >= 0 && zs[v].cond == ImpOpen && !IsConv(zs[v])
    requires forall k :: i <= k < v ==> zs[k].cond != ImpOpen
    ensures Scan(zs[v := CloseZ(zs[v])], i, b) == Scan(zs, i, b + 1)
    decreases v - i
  {
    var ws := zs[v := CloseZ(zs[v])];
    if i == v {
      ScanSame(zs, ws, i + 1, Weigh(zs[i], b + 1));
    } else {
      ScanEvicted(zs, v, i + 1, Weigh(zs[i], b));
    }
  }

  /** Implicitly open zones below index i. */
  function ImpBelow(zs: seq<Zone>, i: nat): nat
    requires i <= |zs|
  {
    Count(zs[..i], ImpOpen)
  }

  lemma ImpBelowNext(zs: seq<Zone>, i: nat)
    requires i < |zs|
    ensures ImpBelow(zs, i + 1) == ImpBelow(zs, i) + Has(zs[i], ImpOpen)
  {
    assert zs[..i + 1][..i] == zs[..i];
  }

  lemma ImpBelowUpdate(zs: seq<Zone>, i: nat, v: nat, z: Zone)
    requires i <= |zs| && v < |zs|
    ensures ImpBelow(zs[v := z], i) ==
            ImpBelow(zs, i) - (if v < i then Has(zs[v], ImpOpen) else 0) + (if v < i then Has(z, ImpOpen) else 0)
  {
    if v < i {
      assert zs[v := z][..i] == zs[..i][v := z];
      CountUpdate(zs[..i], v, z, ImpOpen);
    } else {
      assert zs[v := z][..i] == zs[..i];
    }
  }

  lemma ImpBelowNone(zs: seq<Zone>, i: nat)
    requires i <= |zs|
    ensures ImpBelow(zs, i) > 0 <==> exists k :: 0 <= k < i && zs[k].cond == ImpOpen
    ensures Count(zs, ImpOpen) > 0 <==> exists k :: 0 <= k < |zs| && zs[k].cond == ImpOpen
  {
    CountIsPositive(zs, ImpOpen);
    CountIsPositive(zs[..i], ImpOpen);
    assert forall k :: 0 <= k < i ==> zs[..i][k] == zs[k];
  }

  /** The balance from index i on, in the middle of the command. */
  function BalanceAt(zs: seq<Zone>, limit: nat, i: nat): int
    requires i <= |zs|
  {
    Scan(zs, i, OpenCount(zs) - limit - ImpBelow(zs, i))
  }

  /** Within the limit, or with nothing left to evict. */
  predicate Settled(zs: seq<Zone>, limit: nat) { OpenCount(zs) <= limit || Count(zs, ImpOpen) == 0 }

  lemma SkipKeepsBalance(zs: seq<Zone>, limit: nat, i: nat)
    requires i < |zs| && zs[i].cond != Closed && Settled(zs, limit)
    ensures BalanceAt(zs, limit, i + 1) == BalanceAt(zs, limit, i)
  {
    ImpBelowNext(zs, i);
    ImpBelowNone(zs, i);
  }

  /** Opening the closed zone i, eviction included, leaves the balance as the scan says. */
  lemma OpenKeepsBalance(m: Model, zs: seq<Zone>, limit: nat, i: nat)
    requires AllOK(m, zs) && i < |zs| && zs[i].cond == Closed && Settled(zs, limit)
    ensures var ws := OpenZ(zs, limit, i, true);
            Settled(ws, limit) && BalanceAt(ws, limit, i + 1) == BalanceAt(zs, limit, i)
  {
    hide AllOK, Count, ImpBelow, Scan;
    var zs1 := if OpenCount(zs) >= limit then Evict(zs) else zs;
    var ws := zs1[i := zs1[i].(cond := ExpOpen)];
    OneOK(m, zs, i);
    OpenCounts(m, zs, limit, i, true);
    EvictOther(zs, i);
    ImpBelowNext(ws, i);
    ImpBelowUpdate(zs1, i, i, zs1[i].(cond := ExpOpen));
    ImpBelowNone(zs, i);
    ScanStep(zs, i, OpenCount(zs) - limit - ImpBelow(zs, i));
    var b := OpenCount(zs) - limit - ImpBelow(zs, i);
    var v := FirstImp(zs);
    if OpenCount(zs) >= limit && v < |zs| {
      OneOK(m, zs, v);
      ImpBelowUpdate(zs, i, v, CloseZ(zs[v]));
      ScanSame(ws, zs1, i + 1, if v < i then b + 1 else b);
      if v < i {
        ScanSame(zs1, zs, i + 1, b + 1);
      } else {
        ScanEvicted(zs, v, i + 1, b);
      }
    } else {
      ScanSame(ws, zs, i + 1, b + 1);
    }
  }

  lemma ScanStep(zs: seq<Zone>, i: nat, b: int)
    requires i < |zs|
    ensures Scan(zs, i, b) == Scan(zs, i + 1, Weigh(zs[i], b))
  {
  }

  /** Opening all closed zones from index i on ends within the limit exactly when the balance from
      there is not positive. */
  lemma {:induction false} OpenAllExact(m: Model, zs: seq<Zone>, limit: nat, i: nat)
    requires AllOK(m, zs) && i <= |zs| && Settled(zs, limit)
    ensures OpenCount(OpenAllFrom(zs, limit, i)) <= limit <==> BalanceAt(zs, limit, i) <= 0
    decreases |zs| - i
  {
    hide AllOK, OpenZ, Settled, BalanceAt, OpenCount;
    if i == |zs| {
      BalanceAtEnd(zs, limit);
    } else if zs[i].cond == Closed {
      var ws := OpenZ(zs, limit, i, true);
      OpenConserves(m, zs, limit, i);
      OpenKeepsBalance(m, zs, limit, i);
      OpenAllExact(m, ws, limit, i + 1);
    } else {
      SkipKeepsBalance(zs, limit, i);
      OpenAllExact(m, zs, limit, i + 1);
    }
  }

  lemma BalanceAtEnd(zs: seq<Zone>, limit: nat)
    requires Settled(zs, limit)
    ensures OpenCount(zs) <= limit <==> BalanceAt(zs, limit, |zs|) <= 0
  {
    assert zs[..|zs|] == zs;
  }

  /** OPEN ALL keeps the device well formed. When explicitly open and closed zones fit the limit it reports
      success, and then keeps the limit exactly if the balance of the zones before it is not positive; it
      always does if written implicitly open zones fit besides. */
  lemma OpenAllLimit(d: Dev)
    requires DevOK(d) && WithinLimit(d)
    ensures DevOK(AllCommand(d, OpenAction).dev)
    ensures FitsLimit(d) ==>
              && AllCommand(d, OpenAction).status == Ok
              && (WithinLimit(AllCommand(d, OpenAction).dev) <==> Balance(d) <= 0)
    ensures !FitsLimit(d) ==> AllCommand(d, OpenAction) == Outcome(d, InsufficientResources)
    ensures Claims(d.zones) <= d.limit ==> WithinLimit(AllCommand(d, OpenAction).dev)
  {
    hide Tiling, AllOK, Claims, Count, OpenAllFrom, SameZones, Scan;
    OpenAllKeeps(d.model, d.zones, d.limit, 0);
    TilingKept(d, OpenAllFrom(d.zones, d.limit, 0));
    ImpBelowNone(d.zones, 0);
    OpenAllExact(d.model, d.zones, d.limit, 0);
  }

  /** When every implicitly open zone holds data and lies above every closed zone, that is whether open
      and closed zones together fit the limit: whatever is evicted is opened again. */
  lemma LinedLimit(d: Dev)
    requires DevOK(d) && WithinLimit(d) && Lined(d.zones) && FitsLimit(d)
    ensures WithinLimit(AllCommand(d, OpenAction).dev) <==> OpenCount(d.zones) + Count(d.zones, Closed) <= d.limit
  {
    hide Tiling, AllOK, Count, OpenAllFrom, Lined, SameZones;
    NoneBelowZero(d.zones);
    OpenAllReopens(d.model, d.zones, d.limit, 0);
  }
}
