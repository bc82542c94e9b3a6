/** REPORT ZONES: which zones match a reporting option, and how many descriptors fit a buffer. */
module ZoneReport {
  import opened Common
  import opened Zones

  /** zbc_should_report_zone; ro is the reporting option without the PARTIAL bit. */
  predicate ShouldReport(z: Zone, ro: nat) {
    match ro
    case 0x00 => true
    case 0x01 => z.cond == Empty
    case 0x02 => z.cond == ImpOpen
    case 0x03 => z.cond == ExpOpen
    case 0x04 => z.cond == Closed
    case 0x05 => z.cond == Full
    case 0x06 => z.cond == ReadOnly
    case 0x07 => z.cond == Offline
    case 0x10 => z.reset
    case 0x11 => z.nonSeq
    case 0x3f => z.cond == NotWp
    case _ => false
  }

  predicate ValidOption(ro: nat) {
    ro <= 0x07 || ro == 0x10 || ro == 0x11 || ro == 0x3f
  }

  /** The matching zones from index i on, in order. */
  function Matches(zs: seq<Zone>, i: nat, ro: nat): seq<Zone>
    requires i <= |zs|
    decreases |zs| - i
  {
    if i == |zs| then []
    else (if ShouldReport(zs[i], ro) then [zs[i]] else []) + Matches(zs, i + 1, ro)
  }

  /** Descriptors that fit a buffer of b bytes after the 64-byte header. */
  function Slots(b: nat): nat { if b < 64 then 0 else (b - 64) / 64 }

  /** The number of matching zones from index i up to index k. */
  function Rank(zs: seq<Zone>, i: nat, k: nat, ro: nat): nat
    requires i <= k <= |zs|
    decreases k - i
  {
    if i == k then 0 else (if ShouldReport(zs[i], ro) then 1 else 0) + Rank(zs, i + 1, k, ro)
  }

  /** Matches holds each matching zone at its rank and nothing else. */
  lemma {:induction false} MatchesRank(zs: seq<Zone>, i: nat, k: nat, ro: nat)
    requires i <= k <= |zs|
    ensures Rank(zs, i, k, ro) <= |Matches(zs, i, ro)| == Rank(zs, i, |zs|, ro)
    ensures k < |zs| && ShouldReport(zs[k], ro) ==>
              Rank(zs, i, k, ro) < |Matches(zs, i, ro)| && Matches(zs, i, ro)[Rank(zs, i, k, ro)] == zs[k]
    decreases |zs| - i
  {
    if i < |zs| { MatchesRank(zs, i + 1, if i < k then k else i + 1, ro); }
  }

  /** The list length of the header, from the first pass, and the number of descriptors of the second. */
  function Header(m: nat, partial: bool, alloc: nat): nat {
    64 * (if partial && Slots(alloc) < m then Slots(alloc) else m) % TWO_32
  }

  function Emitted(m: nat, room: nat): nat { if Slots(room) < m then Slots(room) else m }

  /** When the data-in buffer has the allocation length, a partial report announces exactly the
      descriptors it emits; a full report announces all matches, as long as they are fewer than
      2^26. */
  lemma PassesAgree(m: nat, alloc: nat)
    requires alloc < TWO_32
    ensures Header(m, true, alloc) == 64 * Emitted(m, alloc)
    ensures Header(m, false, alloc) == 64 * m <==> m < 0x400_0000
  {
  }
}
